/** The receive side of Source/Core/Network/Connection.cpp: cutting the byte stream back into packets. */
module Framing {
  import opened Common
  import opened Wire

  const RECV_BUFFER_SIZE: nat := 4096

  // ---------- one call, and a connection's life, on values ----------

  /** Whether the protocol accepts a packet. */
  type Protocol = seq<Byte> -> bool

  function Accepted(a: Protocol, packets: seq<seq<Byte>>): (r: seq<seq<Byte>>)
    ensures |r| <= |packets|
  {
    if packets == [] then []
    else (if a(packets[0]) then [packets[0]] else []) + Accepted(a, packets[1..])
  }

  /** What came of a sequence of reads: still connected or not, the packets accepted, and the bytes kept. */
  datatype Session = Session(ok: bool, delivered: seq<seq<Byte>>, pending: seq<Byte>)

  /** One call: a packet completed from kept bytes must be accepted; one that lies in the buffer may be skipped. */
  function Receive(a: Protocol, kept: seq<Byte>, chunk: seq<Byte>): Session {
    var s := kept + chunk;
    if kept == [] then Session(true, Accepted(a, Parse(s).packets), Parse(s).rest)
    else if !Complete(s) then Session(true, [], s)
    else
      var n := PacketLength(s);
      if !a(s[..n]) then Session(false, [], s[..n])
      else Session(true, [s[..n]] + Accepted(a, Parse(s[n..]).packets), Parse(s[n..]).rest)
  }

  /** The bytes that complete a kept beginning of a header show a size whose sum with 16 exceeds 64 bits. */
  predicate Wraps(kept: seq<Byte>, chunk: seq<Byte>) {
    kept != [] && |kept + chunk| >= HEADER_SIZE && PacketLength(kept + chunk) >= WORD_END
  }

  /** One call, for kept bytes whose header wraps too: that call fails when it has read the header. */
  function Call(a: Protocol, kept: seq<Byte>, chunk: seq<Byte>): Session {
    if Wraps(kept, chunk) then Session(false, [], (kept + chunk)[..HEADER_SIZE]) else Receive(a, kept, chunk)
  }

  /** The headers of packets that begin in this read do not wrap. */
  predicate Readable(kept: seq<Byte>, chunk: seq<Byte>) {
    var s := kept + chunk;
    if kept == [] then SizesFit(s) else Complete(s) && PacketLength(s) < WORD_END ==> SizesFit(s[PacketLength(s)..])
  }

  /** On streams in which no header wraps every read is readable, and the two are the same. */
  lemma CallFits(a: Protocol, kept: seq<Byte>, chunk: seq<Byte>)
    requires SizesFit(kept + chunk)
    ensures Readable(kept, chunk) && Call(a, kept, chunk) == Receive(a, kept, chunk)
  {
  }

  /** Successive calls; the first that fails ends the connection. */
  function Feed(a: Protocol, start: Session, chunks: seq<seq<Byte>>): Session
    decreases |chunks|
  {
    if chunks == [] || !start.ok then start
    else
      var r := Receive(a, start.pending, chunks[0]);
      Feed(a, Session(r.ok, start.delivered + r.delivered, r.pending), chunks[1..])
  }

  /** The reads of a new connection. */
  function Run(a: Protocol, chunks: seq<seq<Byte>>): Session {
    Feed(a, Session(true, [], []), chunks)
  }

  // ---------- what a call has still to do while it runs ----------

  /** With `done` accepted and `rest` not read yet, a call that began outside a packet ends as `r`. */
  predicate Remaining(a: Protocol, r: Session, done: seq<seq<Byte>>, rest: seq<Byte>) {
    && SizesFit(rest) && r.ok && r.pending == Parse(rest).rest
    && r.delivered == done + Accepted(a, Parse(rest).packets)
  }

  /** The length as the code computes it: in 64-bit arithmetic. */
  function Required(header: Header): nat {
    (header.size + HEADER_SIZE) % WORD_END
  }

  /** The length computed is 16 more than the word in bytes 8 to 15, modulo the machine word.  It is the packet's
      exactly if it covers a header, and shorter than a header otherwise: such a header ends the connection if it
      is completed from kept bytes. For the one size with length 0 the branch for whole packets would not advance. */
  lemma WrappedLength(s: seq<Byte>)
    requires |s| >= HEADER_SIZE
    ensures var required := Required(HeaderOf(s));
      && required == (16 + WordAt(s, 8)) % 0x1_0000_0000_0000_0000
      && (required == PacketLength(s) <==> PacketLength(s) < WORD_END)
      && (required >= HEADER_SIZE <==> PacketLength(s) < WORD_END)
      && (required == 0 <==> HeaderOf(s).size == WORD_END - HEADER_SIZE)
  {
    assert HeaderOf(s) == HeaderOf(s[..HEADER_SIZE]) by {
      HeaderOfPrefix(s[..HEADER_SIZE], s[HEADER_SIZE..]);
      assert s == s[..HEADER_SIZE] + s[HEADER_SIZE..];
    }
    HeaderBytes(s[..HEADER_SIZE]);
    HeaderLayout(s);
  }

  lemma FitsInWord(s: seq<Byte>)
    requires SizesFit(s) && |s| >= HEADER_SIZE
    ensures PacketLength(s) < WORD_END && PacketLength(s) == Required(HeaderOf(s))
  {
  }

  lemma AcceptedOne(a: Protocol, packet: seq<Byte>)
    ensures Accepted(a, [packet]) == if a(packet) then [packet] else []
  {
  }

  /** The kept bytes are a proper beginning of a packet, whose header has been read once it was whole. */
  predicate PendingOk(header: Header, kept: seq<Byte>) {
    && kept != [] && !Complete(kept)
    && (|kept| >= HEADER_SIZE ==> header == HeaderOf(kept) && PacketLength(kept) < WORD_END)
  }

  /** The state of a call that began with `kept` and reads d, when it has read `processed` bytes, accepted
      `done` and keeps `now`. */
  predicate During(a: Protocol, kept: seq<Byte>, d: seq<Byte>, processed: nat, done: seq<seq<Byte>>, now: seq<Byte>)
  {
    && processed <= |d|
    && if now == [] then Remaining(a, Call(a, kept, d), done, d[processed..])
       else if processed < |d| then processed == 0 && now == kept && done == []
       else Call(a, kept, d) == Session(true, done, now)
  }

  lemma Begin(a: Protocol, header: Header, kept: seq<Byte>, d: seq<Byte>)
    requires kept == [] || PendingOk(header, kept)
    requires Readable(kept, d)
    ensures During(a, kept, d, 0, [], kept)
  {
    assert [] + d == d && d[0..] == d && kept + [] == kept;
  }

  lemma End(a: Protocol, kept: seq<Byte>, d: seq<Byte>, done: seq<seq<Byte>>, now: seq<Byte>)
    requires During(a, kept, d, |d|, done, now)
    ensures Call(a, kept, d) == Session(true, done, now)
  {
  }

  /** A call that begins inside a packet, when the packet's missing bytes have been read. */
  lemma Continued(a: Protocol, header: Header, kept: seq<Byte>, d: seq<Byte>)
    requires PendingOk(header, kept) && Readable(kept, d)
    ensures var s := kept + d;
      if Wraps(kept, d) then |kept| < HEADER_SIZE && Call(a, kept, d) == Session(false, [], s[..HEADER_SIZE])
      else if !Complete(s) then |s| > |kept| ==> During(a, kept, d, |d|, [], s)
      else
        var n := PacketLength(s);
        && |kept| < n < WORD_END
        && if !a(s[..n]) then Call(a, kept, d) == Session(false, [], s[..n])
           else During(a, kept, d, n - |kept|, [s[..n]], [])
  {
    var s := kept + d;
    if |kept| >= HEADER_SIZE { HeaderOfPrefix(kept, d); }
    if Complete(s) {
      var n := PacketLength(s);
      assert s[n..] == d[n - |kept|..];
    }
  }

  /** A call that is between packets, when the next one has been read or kept. */
  lemma Started(a: Protocol, kept: seq<Byte>, d: seq<Byte>, processed: nat, done: seq<seq<Byte>>)
    requires During(a, kept, d, processed, done, []) && processed < |d|
    ensures var rest := d[processed..];
      && SizesFit(rest)
      && if !Complete(rest) then During(a, kept, d, |d|, done, rest)
         else
           var n := PacketLength(rest);
           During(a, kept, d, processed + n, done + (if a(rest[..n]) then [rest[..n]] else []), [])
  {
    var rest := d[processed..];
    if Complete(rest) {
      var n := PacketLength(rest);
      assert Parse(rest).packets[1..] == Parse(rest[n..]).packets;
      assert rest[n..] == d[processed + n..];
      Appended(done, if a(rest[..n]) then [rest[..n]] else [], Accepted(a, Parse(rest[n..]).packets));
    }
  }

  /** A read that leaves the connection open keeps what parsing would leave, and the later bytes still fit. */
  lemma Served(a: Protocol, kept: seq<Byte>, d: seq<Byte>, more: seq<Byte>)
    requires !Complete(kept) && SizesFit(kept + (d + more))
    ensures SizesFit(kept + d)
    ensures var r := Receive(a, kept, d);
      r.ok ==> r.pending == Parse(kept + d).rest && SizesFit(r.pending + more)
  {
    Appended(kept, d, more);
    FitsMore(kept + d, more);
  }

  // ---------- the code ----------

  class PendingStream {
    var header: Header
    var dataBuffer: seq<Byte>

    constructor (header: Header)
      ensures this.header == header && dataBuffer == []
    {
      this.header, dataBuffer := header, [];
    }

    method AppendData(data: array<Byte>, from: nat, size: nat)
      requires from + size <= data.Length
      modifies this
      ensures dataBuffer == old(dataBuffer) + data[from..from + size] && header == old(header)
    {
      dataBuffer := dataBuffer + data[from..from + size];
    }
  }

  lemma Spliced<T>(kept: seq<T>, d: seq<T>, p: nat, q: nat)
    requires p <= q <= |d|
    ensures (kept + d[..p]) + d[p..q] == (kept + d)[..|kept| + q]
    ensures kept + d[..p] == (kept + d)[..|kept| + p]
    ensures (kept + d[..p]) + d[p..] == kept + d && (kept + d)[..|kept| + |d|] == kept + d
  {
    assert d[..p] + d[p..q] == d[..q];
    Appended(kept, d[..p], d[p..q]);
    assert d[..p] + d[p..] == d;
    Appended(kept, d[..p], d[p..]);
  }

  class Receiver {
    const buffer: array<Byte>
    const protocol: Protocol
    var pending: PendingStream?
    var isOpen: bool
    var delivered: seq<seq<Byte>>
    var notifications: nat

    ghost predicate Valid()
      reads this, pending
    {
      pending != null ==> PendingOk(pending.header, pending.dataBuffer)
    }

    ghost function Kept(): seq<Byte>
      reads this, pending
    {
      if pending == null then [] else pending.dataBuffer
    }

    constructor (protocol: Protocol)
      ensures Valid() && Kept() == [] && isOpen && delivered == [] && notifications == 0
      ensures this.protocol == protocol && fresh(buffer) && buffer.Length == 4096
    {
      this.protocol := protocol;
      buffer := new Byte[RECV_BUFFER_SIZE](_ => 0);
      pending, isOpen, delivered, notifications := null, true, [], 0;
    }

    method OnDataReceived(packet: seq<Byte>) returns (ok: bool)
      modifies this`delivered
      ensures ok == protocol(packet)
      ensures delivered == old(delivered) + Accepted(protocol, [packet])
    {
      ok := protocol(packet);
      if ok {
        delivered := delivered + [packet];
      }
    }

    /** Completes the header of a kept beginning as far as the bytes go. */
    method CompleteHeader(length: nat, ghost kept: seq<Byte>, ghost d: seq<Byte>) returns (processed: nat)
      requires pending != null && Valid() && kept == Kept()
      requires 0 < length <= buffer.Length && d == buffer[..length]
      modifies pending
      ensures processed <= length && Kept() == kept + d[..processed]
      ensures |Kept()| < HEADER_SIZE ==> processed == length
      ensures |kept| < HEADER_SIZE ==> |Kept()| <= HEADER_SIZE
      ensures |Kept()| >= HEADER_SIZE ==> pending.header == HeaderOf(Kept()) && |Kept()| <= PacketLength(Kept())
    {
      processed := 0;
      assert kept + d[..0] == kept;
      if |pending.dataBuffer| < HEADER_SIZE {
        var size := Min(length, HEADER_SIZE - |pending.dataBuffer|);
        pending.AppendData(buffer, 0, size);
        processed := size;
        assert pending.dataBuffer == kept + d[..processed];
        if |pending.dataBuffer| < HEADER_SIZE {
          return;
        }
        pending.header := HeaderOf(pending.dataBuffer);
      }
    }

    /** Appends what the packet still needs, as far as the bytes go. */
    method AppendMissing(length: nat, processed: nat, required: nat, ghost kept: seq<Byte>, ghost d: seq<Byte>)
      returns (next: nat)
      requires pending != null && processed <= length <= buffer.Length && d == buffer[..length]
      requires Kept() == kept + d[..processed] && |Kept()| <= required
      modifies pending
      ensures processed <= next <= length && pending.header == old(pending.header)
      ensures |Kept()| == |kept| + next && Kept() == (kept + d)[..|kept| + next]
      ensures |Kept()| <= required && (|Kept()| < required ==> next == length)
    {
      var remaining := length - processed;
      var size := Min(remaining, required - |pending.dataBuffer|);
      Spliced(kept, d, processed, processed + size);
      pending.AppendData(buffer, processed, size);
      next := processed + size;
    }

    /** The part of the loop that continues a packet begun by an earlier read. */
    method ContinuePending(length: nat, ghost kept: seq<Byte>, ghost d: seq<Byte>)
      returns (ok: bool, processed: nat, ghost done: seq<seq<Byte>>)
      requires pending != null && Valid() && kept == Kept()
      requires 0 < length <= buffer.Length && d == buffer[..length] && Readable(kept, d)
      modifies this`pending, this`delivered, pending
      ensures delivered == old(delivered) + done
      ensures ok ==> Valid() && During(protocol, kept, d, processed, done, Kept()) && 0 < processed <= length
      ensures pending == null || pending == old(pending)
      ensures ok ==> (pending == null <==> done != []) && (pending != null ==> processed == length)
      ensures !ok ==> Call(protocol, kept, d) == Session(false, done, Kept())
    {
      hide SizesFit, HeaderOf, During, Call, Receive, Readable, Accepted, Required;
      Continued(protocol, pending.header, kept, d);
      ghost var s := kept + d;
      Spliced(kept, d, length, length);
      done := [];
      processed := CompleteHeader(length, kept, d);
      if |pending.dataBuffer| < HEADER_SIZE {
        return true, processed, done;
      }
      Spliced(kept, d, processed, length);
      HeaderOfPrefix(pending.dataBuffer, d[processed..]);
      WrappedLength(s);
      var required := Required(pending.header);
      if required < |pending.dataBuffer| {
        return false, processed, done;
      }
      processed := AppendMissing(length, processed, required, kept, d);
      if required == |pending.dataBuffer| {
        ok := OnDataReceived(pending.dataBuffer);
        AcceptedOne(protocol, pending.dataBuffer);
        if !ok {
          return false, processed, done;
        }
        done := [pending.dataBuffer];
        pending := null;
      }
      return true, processed, done;
    }

    /** The part of the loop that starts a new packet. */
    method StartPacket(length: nat, processed: nat,
                       ghost kept: seq<Byte>, ghost d: seq<Byte>, ghost done: seq<seq<Byte>>)
      returns (accepted: bool, next: nat, ghost more: seq<seq<Byte>>)
      requires pending == null && processed < length <= buffer.Length && d == buffer[..length]
      requires During(protocol, kept, d, processed, done, [])
      modifies this`pending, this`delivered
      ensures delivered == old(delivered) + more && accepted == (more != [])
      ensures Valid() && During(protocol, kept, d, next, done + more, Kept()) && processed < next <= length
      ensures pending != null ==> fresh(pending) && next == length
    {
      hide SizesFit, HeaderOf, During, Required;
      Started(protocol, kept, d, processed, done);
      var rest := buffer[processed..length];
      assert d[processed..] == rest && done + [] == done;
      more := [];
      if |rest| < HEADER_SIZE {
        pending := new PendingStream(Header(0, 0));
        pending.AppendData(buffer, processed, |rest|);
        assert Kept() == rest;
        return false, length, more;
      }
      var header := HeaderOf(rest);
      FitsInWord(rest);
      if |rest| < Required(header) {
        pending := new PendingStream(header);
        pending.AppendData(buffer, processed, |rest|);
        assert Kept() == rest;
        return false, length, more;
      }
      var packetLength := Required(header);
      var packet := rest[..packetLength];
      accepted := OnDataReceived(packet);
      AcceptedOne(protocol, packet);
      if accepted {
        more := [packet];
      }
      next := processed + packetLength;
    }

    /** The loop of ReceiveImpl. */
    method ProcessBuffer(length: nat) returns (ok: bool, hasAny: bool, ghost done: seq<seq<Byte>>)
      requires Valid() && length <= buffer.Length && Readable(Kept(), buffer[..length])
      modifies this`pending, this`delivered, pending
      ensures pending == old(pending) || pending == null || fresh(pending)
      ensures Call(protocol, old(Kept()), old(buffer[..length])) == Session(ok, done, Kept())
      ensures delivered == old(delivered) + done && (ok ==> Valid() && hasAny == (done != []))
    {
      hide During, Parse, SizesFit, HeaderOf, Call, Receive, Readable, Complete, PacketLength, PendingOk;
      hasAny := false;
      var accepted, processed := false, 0;
      ghost var kept, d, more := Kept(), buffer[..length], [];
      done := [];
      Begin(protocol, if pending == null then Header(0, 0) else pending.header, kept, d);
      while processed < length
        invariant buffer[..length] == d && processed <= length
        invariant delivered == old(delivered) + done && hasAny == (done != [])
        invariant Valid() && (pending == null || pending == old(pending) || fresh(pending))
        invariant pending != null && processed < length ==> processed == 0 && Kept() == kept && done == []
        invariant During(protocol, kept, d, processed, done, Kept())
      {
        if pending != null {
          ok, processed, done := ContinuePending(length, kept, d);
          if !ok {
            return false, hasAny, done;
          }
          if pending == null {
            hasAny := true;
          }
        } else {
          accepted, processed, more := StartPacket(length, processed, kept, d, done);
          if accepted {
            hasAny := true;
          }
          Appended(old(delivered), done, more);
          done := done + more;
          assert delivered == old(delivered) + done && hasAny == (done != []);
        }
      }
      End(protocol, kept, d, done, Kept());
      return true, hasAny, done;
    }

    method ReceiveImpl(length: nat) returns (ok: bool)
      requires Valid()
      requires length <= buffer.Length ==> Readable(Kept(), buffer[..length])
      modifies this`pending, this`delivered, this`notifications, pending
      ensures pending == old(pending) || pending == null || fresh(pending)
      ensures ok ==> Valid()
      ensures length > buffer.Length ==>
        !ok && Kept() == old(Kept()) && delivered == old(delivered) && notifications == old(notifications)
      ensures length <= buffer.Length ==>
        var r := Call(protocol, old(Kept()), old(buffer[..length]));
        && ok == r.ok && Kept() == r.pending && delivered == old(delivered) + r.delivered
        && notifications == old(notifications) + if r.ok && r.delivered != [] then 1 else 0
    {
      if buffer.Length < length {
        return false;
      }
      hide Parse, SizesFit, Call, Readable, PendingOk;
      var hasAny: bool;
      ghost var done: seq<seq<Byte>>;
      ok, hasAny, done := ProcessBuffer(length);
      if ok && hasAny {
        notifications := notifications + 1;
      }
    }

    /** A read has completed. */
    method OnReceived(error: bool, length: nat)
      requires isOpen && Valid()
      requires length <= buffer.Length ==> Readable(Kept(), buffer[..length])
      modifies this`pending, this`delivered, this`notifications, this`isOpen, pending
      ensures pending == old(pending) || pending == null || fresh(pending)
      ensures isOpen ==> Valid()
      ensures length == 0 || error || length > buffer.Length ==>
        !isOpen && Kept() == old(Kept()) && delivered == old(delivered) && notifications == old(notifications)
      ensures 0 < length <= buffer.Length && !error ==>
        var r := Call(protocol, old(Kept()), old(buffer[..length]));
        && isOpen == r.ok && Kept() == r.pending && delivered == old(delivered) + r.delivered
        && notifications == old(notifications) + if r.ok && r.delivered != [] then 1 else 0
    {
      if length == 0 || error {
        isOpen := false;
        return;
      }
      var ok := ReceiveImpl(length);
      if !ok {
        isOpen := false;
      }
    }

    /** The reads of a connection, each filling the front of the buffer, until one ends it. */
    method Serve(chunks: seq<seq<Byte>>)
      requires Valid() && isOpen && Kept() == [] && delivered == []
      requires SizesFit(Concat(chunks)) && forall c :: c in chunks ==> 0 < |c| <= buffer.Length
      modifies this`pending, this`delivered, this`notifications, this`isOpen, pending, buffer
      ensures Run(protocol, chunks) == Session(isOpen, delivered, Kept())
    {
      var i := 0;
      assert chunks[0..] == chunks && [] + Concat(chunks) == Concat(chunks);
      while i < |chunks| && isOpen
        invariant i <= |chunks| && (isOpen ==> Valid())
        invariant pending == old(pending) || pending == null || fresh(pending)
        invariant isOpen ==> SizesFit(Kept() + Concat(chunks[i..]))
        invariant Feed(protocol, Session(isOpen, delivered, Kept()), chunks[i..]) == Run(protocol, chunks)
      {
        hide Parse, SizesFit, HeaderOf, Call, Receive, Readable, Complete, PacketLength, PendingOk;
        var c := chunks[i];
        ghost var kept, more := Kept(), Concat(chunks[i + 1..]);
        assert chunks[i..] == [c] + chunks[i + 1..];
        Served(protocol, kept, c, more);
        CallFits(protocol, kept, c);
        Fill(c);
        assert buffer[..|c|] == c;
        OnReceived(false, |c|);
        i := i + 1;
      }
    }

    method Fill(c: seq<Byte>)
      requires |c| <= buffer.Length
      modifies buffer
      ensures buffer[..|c|] == c
    {
      forall k | 0 <= k < |c| {
        buffer[k] := c[k];
      }
    }
  }
}
