/** Packets on the wire (Source/Core/Network/Packet/Packet.h): a 16-byte header, two little-endian 64-bit
    words, and a body of the length the header gives. */
module Wire {
  import opened Common

  type Byte = b: int | 0 <= b < 0x100

  const HEADER_SIZE: nat := 16
  const WORD_END: nat := 0x1_0000_0000_0000_0000

  datatype Header = Header(id: nat, size: nat)

  // ---------- little-endian words ----------

  function Power(k: nat): (p: nat)
    ensures p > 0
  {
    if k == 0 then 1 else 0x100 * Power(k - 1)
  }

  /** The k low bytes of n, lowest first. */
  function Word(n: nat, k: nat): (s: seq<Byte>)
    ensures |s| == k
  {
    if k == 0 then [] else [n % 0x100] + Word(n / 0x100, k - 1)
  }

  function Value(s: seq<Byte>): nat {
    if s == [] then 0 else s[0] + 0x100 * Value(s[1..])
  }

  lemma {:induction false} ValueOfWord(n: nat, k: nat)
    requires n < Power(k)
    ensures Value(Word(n, k)) == n
  {
    if k > 0 {
      ValueOfWord(n / 0x100, k - 1);
      assert Word(n, k)[1..] == Word(n / 0x100, k - 1);
    }
  }

  lemma {:induction false} WordOfValue(s: seq<Byte>)
    ensures Value(s) < Power(|s|) && Word(Value(s), |s|) == s
  {
    if s != [] {
      WordOfValue(s[1..]);
      assert [s[0]] + s[1..] == s;
    }
  }

  lemma EightBytes()
    ensures Power(8) == WORD_END
  {
    assert Power(4) == 0x1_0000_0000 by { assert Power(2) == 0x1_0000; }
    assert Power(6) == 0x1_0000_0000_0000;
  }

  // ---------- headers ----------

  function HeaderOf(s: seq<Byte>): Header
    requires |s| >= HEADER_SIZE
  {
    Header(Value(s[..8]), Value(s[8..16]))
  }

  function EncodeHeader(h: Header): (s: seq<Byte>)
    ensures |s| == HEADER_SIZE
  {
    Word(h.id, 8) + Word(h.size, 8)
  }

  /** Reading a header undoes writing it, whatever follows it. */
  lemma HeaderRoundTrip(h: Header, rest: seq<Byte>)
    requires h.id < WORD_END && h.size < WORD_END
    ensures HeaderOf(EncodeHeader(h) + rest) == h
  {
    EightBytes();
    ValueOfWord(h.id, 8);
    ValueOfWord(h.size, 8);
    var s := EncodeHeader(h) + rest;
    assert s[..8] == Word(h.id, 8) && s[8..16] == Word(h.size, 8);
  }

  /** Writing a header undoes reading it: no two byte strings read as the same header. */
  lemma HeaderBytes(s: seq<Byte>)
    requires |s| == HEADER_SIZE
    ensures HeaderOf(s).id < WORD_END && HeaderOf(s).size < WORD_END && EncodeHeader(HeaderOf(s)) == s
  {
    EightBytes();
    WordOfValue(s[..8]);
    WordOfValue(s[8..16]);
    assert s == s[..8] + s[8..16];
  }

  // ---------- the layout, byte by byte ----------

  /** What a byte at each place of a word weighs. */
  const WEIGHTS: seq<nat> := [
    1, 0x100, 0x1_0000, 0x100_0000, 0x1_0000_0000, 0x100_0000_0000, 0x1_0000_0000_0000, 0x100_0000_0000_0000]

  /** The word whose lowest byte is at position i. */
  function WordAt(s: seq<nat>, i: nat): nat
    requires i + 8 <= |s|
  {
    s[i] + s[i + 1] * 0x100 + s[i + 2] * 0x1_0000 + s[i + 3] * 0x100_0000 + s[i + 4] * 0x1_0000_0000
    + s[i + 5] * 0x100_0000_0000 + s[i + 6] * 0x1_0000_0000_0000 + s[i + 7] * 0x100_0000_0000_0000
  }

  /** Eight bytes of the number, lowest first, eight bytes of the body's length, and the body. */
  predicate Laid(s: seq<Byte>, id: nat, body: seq<Byte>) {
    && |s| == 16 + |body|
    && (forall i :: 0 <= i < 8 ==> s[i] == id / WEIGHTS[i] % 0x100 && s[8 + i] == |body| / WEIGHTS[i] % 0x100)
    && s[16..] == body
  }

  lemma Divisions(n: nat)
    ensures n / 0x100 / 0x100 == n / 0x1_0000 && n / 0x100 / 0x1_0000 == n / 0x100_0000
    ensures n / 0x100 / 0x100_0000 == n / 0x1_0000_0000 && n / 0x100 / 0x1_0000_0000 == n / 0x100_0000_0000
    ensures n / 0x100 / 0x100_0000_0000 == n / 0x1_0000_0000_0000
    ensures n / 0x100 / 0x1_0000_0000_0000 == n / 0x100_0000_0000_0000
  {
  }

  lemma {:induction false} WordBytes(n: nat, k: nat, i: nat)
    requires i < k <= 8
    ensures Word(n, k)[i] == n / WEIGHTS[i] % 0x100
  {
    if i > 0 {
      WordBytes(n / 0x100, k - 1, i - 1);
      Divisions(n);
      assert WEIGHTS[i - 1] * 0x100 == WEIGHTS[i];
    }
  }

  lemma ValueOfEight(s: seq<Byte>)
    requires |s| == 8
    ensures Value(s) == WordAt(s, 0)
  {
    ValueFrom(s, 0); ValueFrom(s, 1); ValueFrom(s, 2); ValueFrom(s, 3);
    ValueFrom(s, 4); ValueFrom(s, 5); ValueFrom(s, 6); ValueFrom(s, 7);
    assert s[0..] == s && Value(s[8..]) == 0;
    hide Value;
  }

  lemma ValueFrom(s: seq<Byte>, i: nat)
    requires i < |s|
    ensures Value(s[i..]) == s[i] + 0x100 * Value(s[i + 1..])
  {
    assert s[i..][1..] == s[i + 1..];
  }

  /** The number is read from bytes 0 to 7 and the body's length from bytes 8 to 15. */
  lemma HeaderLayout(s: seq<Byte>)
    requires |s| >= HEADER_SIZE
    ensures HeaderOf(s) == Header(WordAt(s, 0), WordAt(s, 8)) && PacketLength(s) == 16 + WordAt(s, 8)
  {
    ValueOfEight(s[..8]);
    ValueOfEight(s[8..16]);
  }

  /** A written message is laid out as the peer expects it. */
  lemma EncodedLayout(m: Message)
    ensures Laid(Encode(m), m.id, m.body)
  {
    var s := Encode(m);
    forall i | 0 <= i < 8
      ensures s[i] == m.id / WEIGHTS[i] % 0x100 && s[8 + i] == |m.body| / WEIGHTS[i] % 0x100
    {
      WordBytes(m.id, 8, i);
      WordBytes(|m.body|, 8, i);
    }
    hide Word;
    assert s[16..] == m.body;
  }

  // ---------- messages ----------

  datatype Message = Message(id: nat, body: seq<Byte>)

  function Encode(m: Message): (s: seq<Byte>)
    ensures |s| == HEADER_SIZE + |m.body|
  {
    EncodeHeader(Header(m.id, |m.body|)) + m.body
  }

  /** Messages one after the other. */
  function EncodeAll(ms: seq<Message>): seq<Byte> {
    if ms == [] then [] else Encode(ms[0]) + EncodeAll(ms[1..])
  }

  lemma {:induction false} EncodeAllAppend(ms: seq<Message>, more: seq<Message>)
    ensures EncodeAll(ms + more) == EncodeAll(ms) + EncodeAll(more)
  {
    if ms == [] {
      assert ms + more == more;
    } else {
      EncodeAllAppend(ms[1..], more);
      assert (ms + more)[0] == ms[0] && (ms + more)[1..] == ms[1..] + more;
      hide Encode;
      Appended(Encode(ms[0]), EncodeAll(ms[1..]), EncodeAll(more));
    }
  }

  // ---------- streams ----------

  /** The length of the packet that starts the stream. */
  function PacketLength(s: seq<Byte>): (n: nat)
    requires |s| >= HEADER_SIZE
    ensures n >= HEADER_SIZE
  {
    HeaderOf(s).size + HEADER_SIZE
  }

  /** The stream starts with a whole packet. */
  predicate Complete(s: seq<Byte>) {
    |s| >= HEADER_SIZE && |s| >= PacketLength(s)
  }

  datatype Parsed = Parsed(packets: seq<seq<Byte>>, rest: seq<Byte>)

  /** The packets of a stream seen as a whole, and the beginning of one that follows them. */
  function Parse(s: seq<Byte>): Parsed
    decreases |s|
  {
    if !Complete(s) then Parsed([], s)
    else
      var n := PacketLength(s);
      var tail := Parse(s[n..]);
      Parsed([s[..n]] + tail.packets, tail.rest)
  }

  /** Every header the parser reaches leaves room for its own 16 bytes in a 64-bit length. */
  predicate SizesFit(s: seq<Byte>)
    decreases |s|
  {
    |s| >= HEADER_SIZE ==>
      PacketLength(s) < WORD_END && (Complete(s) ==> SizesFit(s[PacketLength(s)..]))
  }

  /** A header is read from its 16 bytes alone. */
  lemma HeaderOfPrefix(s: seq<Byte>, t: seq<Byte>)
    requires |s| >= HEADER_SIZE
    ensures HeaderOf(s + t) == HeaderOf(s)
  {
    assert (s + t)[..8] == s[..8] && (s + t)[8..16] == s[8..16];
  }

  /** Exactly one packet. */
  predicate IsPacket(p: seq<Byte>) {
    Complete(p) && PacketLength(p) == |p|
  }

  lemma ParseStep(p: seq<Byte>, tail: seq<Byte>)
    requires IsPacket(p)
    ensures Complete(p + tail) && PacketLength(p + tail) == |p|
    ensures Parse(p + tail) == Parsed([p] + Parse(tail).packets, Parse(tail).rest)
    ensures SizesFit(p + tail) <==> |p| < WORD_END && SizesFit(tail)
  {
    HeaderOfPrefix(p, tail);
    hide HeaderOf;
    assert (p + tail)[..|p|] == p && (p + tail)[|p|..] == tail;
  }

  lemma FirstPacket(s: seq<Byte>)
    requires Complete(s)
    ensures IsPacket(s[..PacketLength(s)]) && s == s[..PacketLength(s)] + s[PacketLength(s)..]
  {
    var n := PacketLength(s);
    assert s[..n] + s[n..] == s;
    HeaderOfPrefix(s[..n], s[n..]);
  }

  /** Bytes that arrive later do not disturb the packets already there. */
  lemma {:induction false} ParseMore(s: seq<Byte>, t: seq<Byte>)
    ensures Parse(s + t).packets == Parse(s).packets + Parse(Parse(s).rest + t).packets
    ensures Parse(s + t).rest == Parse(Parse(s).rest + t).rest
    decreases |s|
  {
    if Complete(s) {
      var p, u := s[..PacketLength(s)], s[PacketLength(s)..];
      FirstPacket(s);
      ParseMore(u, t);
      ParseStep(p, u);
      ParseStep(p, u + t);
      Appended(p, u, t);
      hide Parse, Complete, PacketLength;
    }
  }

  /** A stream that fits also fits from the last whole packet read on. */
  lemma {:induction false} FitsMore(s: seq<Byte>, t: seq<Byte>)
    requires SizesFit(s + t)
    ensures SizesFit(s) && SizesFit(Parse(s).rest + t)
    decreases |s|
  {
    if |s| >= HEADER_SIZE { HeaderOfPrefix(s, t); }
    if Complete(s) {
      var p, u := s[..PacketLength(s)], s[PacketLength(s)..];
      FirstPacket(s);
      Appended(p, u, t);
      ParseStep(p, u);
      ParseStep(p, u + t);
      FitsMore(u, t);
    }
  }

  /** Parsing loses no byte and makes none up, and what it leaves is less than a packet. */
  lemma {:induction false} ParseIsPartition(s: seq<Byte>)
    ensures Concat(Parse(s).packets) + Parse(s).rest == s && !Complete(Parse(s).rest)
    ensures forall p :: p in Parse(s).packets ==> IsPacket(p)
    decreases |s|
  {
    if Complete(s) {
      var p, u := s[..PacketLength(s)], s[PacketLength(s)..];
      FirstPacket(s);
      ParseIsPartition(u);
      ParseStep(p, u);
      ConcatCons(p, Parse(u).packets);
      Appended(p, Concat(Parse(u).packets), Parse(u).rest);
      hide Parse, Complete, PacketLength, Concat;
    }
  }

  /** It is the only such partition. */
  lemma {:induction false} ParseIsUnique(packets: seq<seq<Byte>>, rest: seq<Byte>)
    requires !Complete(rest) && forall p :: p in packets ==> IsPacket(p)
    ensures Parse(Concat(packets) + rest) == Parsed(packets, rest)
  {
    if packets == [] {
      assert Concat(packets) + rest == rest;
    } else {
      var p, u := packets[0], Concat(packets[1..]) + rest;
      ParseIsUnique(packets[1..], rest);
      ParseStep(p, u);
      ConcatCons(p, packets[1..]);
      Appended(p, Concat(packets[1..]), rest);
      hide Parse, Complete, PacketLength, Concat;
      assert packets == [p] + packets[1..];
    }
  }
}
