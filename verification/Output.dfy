/** Bytes waiting for the socket (Source/Core/Network/OutputStream.cpp, Buffer.h, StreamWriter.cpp): a queue of
    bytes kept in a list of fixed-size buffers. */
module Output {
  import opened Common
  import opened Wire

  const SEND_BUFFER_SIZE: nat := 4096

  class Buffer {
    const data: array<Byte>
    var start: nat
    var end: nat

    constructor ()
      ensures start == 0 && end == 0 && fresh(data) && data.Length == 4096
    {
      data := new Byte[SEND_BUFFER_SIZE](_ => 0);
      start, end := 0, 0;
    }

    ghost predicate Ok()
      reads this
    {
      start <= end <= data.Length == SEND_BUFFER_SIZE
    }

    function ByteCount(): int
      reads this
    {
      end - start
    }

    function RemainingByteCount(): int
      reads this
    {
      data.Length - end
    }

    ghost function Bytes(): seq<Byte>
      reads this, data
      requires Ok()
    {
      data[start..end]
    }
  }

  /** Part of a buffer, lent to the socket. */
  datatype BufferView = BufferView(buffer: Buffer, offset: nat, length: nat)

  ghost function Arrays(buffers: seq<Buffer>): set<array<Byte>> {
    set b | b in buffers :: b.data
  }

  ghost predicate Separate(buffers: seq<Buffer>) {
    forall i, j :: 0 <= i < j < |buffers| ==> buffers[i] != buffers[j] && buffers[i].data != buffers[j].data
  }

  /** Every buffer but the last is full. */
  ghost predicate Packed(buffers: seq<Buffer>)
    reads buffers
  {
    && (forall i :: 0 <= i < |buffers| ==> buffers[i].Ok())
    && (forall i :: 0 <= i < |buffers| - 1 ==> buffers[i].end == buffers[i].data.Length)
  }

  ghost function Pieces(buffers: seq<Buffer>): (p: seq<seq<Byte>>)
    reads buffers, Arrays(buffers)
    requires Packed(buffers)
    ensures |p| == |buffers| && forall i :: 0 <= i < |buffers| ==> p[i] == buffers[i].Bytes()
  {
    seq(|buffers|, i requires 0 <= i < |buffers| && buffers[i].Ok() reads buffers, Arrays(buffers) =>
      buffers[i].Bytes())
  }

  /** A buffer begins where it began, and what lay before its end lies there still. */
  twostate predicate Kept(b: Buffer)
    requires old(b.Ok())
    reads b, b.data
  {
    && b.start == old(b.start) && old(b.end) <= b.end
    && b.data[..old(b.end)] == old(b.data[..b.end])
  }

  lemma ShorterPrefix<T>(s: seq<T>, t: seq<T>, m: nat, e: nat)
    requires e <= m <= |s| && m <= |t| && s[..m] == t[..m]
    ensures s[..e] == t[..e]
  {
    assert s[..e] == s[..m][..e] && t[..e] == t[..m][..e];
  }

  lemma LastConcat(a: seq<seq<Byte>>)
    requires a != []
    ensures Concat(a) == Concat(a[..|a| - 1]) + a[|a| - 1]
  {
    var x := a[|a| - 1];
    ConcatAppend(a[..|a| - 1], [x]);
    ConcatCons(x, []);
    assert a == a[..|a| - 1] + [x] && Concat<Byte>([]) == [] && x + [] == x;
  }

  /** Changing the last piece changes the end of the whole. */
  lemma LastPiece(a: seq<seq<Byte>>, b: seq<seq<Byte>>, more: seq<Byte>)
    requires |a| == |b| > 0 && a[..|a| - 1] == b[..|a| - 1] && b[|a| - 1] == a[|a| - 1] + more
    ensures Concat(b) == Concat(a) + more
  {
    LastConcat(a);
    LastConcat(b);
    hide Concat;
    Appended(Concat(a[..|a| - 1]), a[|a| - 1], more);
  }

  method Write(to: array<Byte>, offset: nat, bytes: seq<Byte>)
    requires offset + |bytes| <= to.Length
    modifies to
    ensures to[..offset] == old(to[..offset]) && to[offset..offset + |bytes|] == bytes
  {
    forall k | offset <= k < offset + |bytes| {
      to[k] := bytes[k - offset];
    }
  }

  lemma Cancel<T>(a: seq<T>, b: seq<T>, c: seq<T>)
    requires a + c == b + c
    ensures a == b
  {
    assert |a| == |b|;
    assert a == (a + c)[..|a|] && b == (b + c)[..|b|];
  }

  /** The pieces depend on the buffers' cursors and bytes alone. */
  twostate lemma SamePieces(buffers: seq<Buffer>)
    requires old(Packed(buffers))
    requires forall b :: b in buffers ==> b.start == old(b.start) && b.end == old(b.end) && unchanged(b.data)
    ensures Packed(buffers) && Pieces(buffers) == old(Pieces(buffers))
  {
    var now, was := Pieces(buffers), old(Pieces(buffers));
    assert |now| == |was|;
    forall i | 0 <= i < |buffers| ensures now[i] == was[i] {
      assert buffers[i].Bytes() == old(buffers[i].Bytes());
    }
  }

  class OutputStream {
    var bytesCount: nat
    var buffers: seq<Buffer>

    ghost predicate Valid()
      reads this`buffers, buffers
    {
      Separate(buffers) && Packed(buffers)
    }

    ghost function Contents(): seq<Byte>
      reads this`buffers, buffers, Arrays(buffers)
      requires Valid()
    {
      Concat(Pieces(buffers))
    }

    function Back(): Buffer
      reads this`buffers
      requires buffers != []
    {
      buffers[|buffers| - 1]
    }

    /** The last buffer, if there is one: the only one that writing touches. */
    ghost function Tail(): set<Buffer>
      reads this`buffers
    {
      if buffers == [] then {} else {Back()}
    }

    ghost function TailData(): set<array<Byte>>
      reads this`buffers
    {
      if buffers == [] then {} else {Back().data}
    }

    constructor ()
      ensures Valid() && buffers == []
    {
      bytesCount, buffers := 0, [];
    }

    method AddBuffer()
      requires Valid() && (buffers == [] || Back().RemainingByteCount() == 0)
      modifies this`buffers
      ensures Valid() && Contents() == old(Contents())
      ensures |buffers| > 0 && buffers == old(buffers) + [Back()]
      ensures var b := Back(); fresh(b) && fresh(b.data) && b.start == b.end == 0
    {
      hide Concat;
      ghost var before := Pieces(buffers);
      var b := new Buffer();
      buffers := buffers + [b];
      LastConcat(Pieces(buffers));
      assert Pieces(buffers)[..|buffers| - 1] == before;
    }

    /** Moves the end of the last buffer, which adds bytes at the end of the queue or takes them off. */
    method SetLastEnd(end: nat)
      requires Valid() && buffers != []
      requires Back().start <= end <= SEND_BUFFER_SIZE
      modifies Back()`end
      ensures Valid() && Back().end == end
      ensures var b := Back();
        if old(b.end) <= end then Contents() == old(Contents()) + b.data[old(b.end)..end]
        else old(Contents()) == Contents() + b.data[end..old(b.end)]
    {
      hide Concat;
      var b := Back();
      ghost var before := Pieces(buffers);
      b.end := end;
      ghost var after, n := Pieces(buffers), |buffers| - 1;
      assert after[..n] == before[..n];
      if old(b.end) <= end {
        LastPiece(before, after, b.data[old(b.end)..end]);
      } else {
        LastPiece(after, before, b.data[end..old(b.end)]);
      }
    }

    /** Lends all the room left in the last buffer, which counts as written until it is backed up. */
    method Next() returns (buffer: Buffer, offset: nat, size: nat)
      requires Valid()
      modifies this`buffers, Tail()`end
      ensures Valid() && buffers != [] && buffer == Back()
      ensures buffers == old(buffers) || (buffers == old(buffers) + [buffer] && fresh(buffer) && fresh(buffer.data))
      ensures forall b :: b in old(Tail()) && b != buffer ==> b.end == old(b.end)
      ensures buffer in old(buffers) ==> offset == old(buffer.end)
      ensures size > 0 && buffer.end == SEND_BUFFER_SIZE == offset + size && buffer.start <= offset
      ensures Contents() == old(Contents()) + buffer.data[offset..]
    {
      if |buffers| == 0 || Back().RemainingByteCount() <= 0 {
        AddBuffer();
      }
      buffer := Back();
      offset, size := buffer.end, buffer.RemainingByteCount();
      SetLastEnd(buffer.end + size);
    }

    /** Takes bytes off the end of the last buffer; the source aborts if it does not hold so many. */
    method BackUp(count: nat) returns (aborted: bool)
      requires Valid() && buffers != []
      modifies Back()`end
      ensures Valid() && aborted == (count > old(Back().ByteCount()))
      ensures Back().end == old(Back().end) - if aborted then 0 else count
      ensures var b := Back();
        if aborted then Contents() == old(Contents()) else old(Contents()) == Contents() + b.data[b.end..b.end + count]
    {
      var buffer := Back();
      if buffer.ByteCount() < count {
        return true;
      }
      SetLastEnd(buffer.end - count);
      return false;
    }

    /** Copies bytes into lent room; `before` is what the queue held before that room was lent. */
    method Copy(bytes: seq<Byte>, offset: nat, ghost before: seq<Byte>)
      requires Valid() && buffers != [] && Back().start <= offset && offset + |bytes| <= Back().end
      requires Contents() == before + Back().data[offset..Back().end]
      modifies Back().data
      ensures Valid() && Contents() == (before + bytes) + Back().data[offset + |bytes|..Back().end]
      ensures Back().data[..offset] == old(Back().data[..offset])
    {
      hide Concat;
      var b := Back();
      ghost var front := BeforeRoom(offset, before);
      Write(b.data, offset, bytes);
      RoomAfter(offset, front);
      ghost var unused := b.data[offset + |bytes|..b.end];
      assert b.data[offset..b.end] == b.data[offset..offset + |bytes|] + unused;
      Appended(before, bytes, unused);
    }

    /** The pieces without the end of the last one. */
    ghost function Front(offset: nat): (front: seq<seq<Byte>>)
      reads this`buffers, buffers, Arrays(buffers)
      requires Valid() && buffers != [] && Back().start <= offset <= Back().end
    {
      Pieces(buffers)[..|buffers| - 1] + [Back().data[Back().start..offset]]
    }

    lemma RoomAfter(offset: nat, front: seq<seq<Byte>>)
      requires Valid() && buffers != [] && Back().start <= offset <= Back().end
      requires front == Front(offset)
      ensures Contents() == Concat(front) + Back().data[offset..Back().end]
    {
      var b, p, n := Back(), Pieces(buffers), |buffers| - 1;
      assert p[n] == front[n] + b.data[offset..b.end];
      LastPiece(front, p, b.data[offset..b.end]);
    }

    lemma BeforeRoom(offset: nat, before: seq<Byte>) returns (front: seq<seq<Byte>>)
      requires Valid() && buffers != [] && Back().start <= offset <= Back().end
      requires Contents() == before + Back().data[offset..Back().end]
      ensures front == Front(offset) && Concat(front) == before
    {
      front := Front(offset);
      RoomAfter(offset, front);
      Cancel(before, Concat(front), Back().data[offset..Back().end]);
    }

    /** Fills the front of lent room and gives the rest of it back. */
    method Store(bytes: seq<Byte>, offset: nat, remain: nat, ghost before: seq<Byte>)
      requires Valid() && buffers != [] && Back().start <= offset
      requires offset + |bytes| + remain == Back().end == SEND_BUFFER_SIZE
      requires Contents() == before + Back().data[offset..]
      modifies Back()`end, Back().data
      ensures Valid() && Contents() == before + bytes
      ensures Back().end == offset + |bytes| && Back().data[..offset] == old(Back().data[..offset])
    {
      hide Concat, Pieces;
      Copy(bytes, offset, before);
      if remain > 0 {
        var aborted := BackUp(remain);
        assert !aborted;
        Cancel(Contents(), before + bytes, Back().data[offset + |bytes|..SEND_BUFFER_SIZE]);
      }
    }

    /** Writes as many of the bytes as the last buffer takes. */
    method WriteSome(bytes: seq<Byte>) returns (n: nat)
      requires Valid() && bytes != []
      modifies this`buffers, Tail()`end, TailData()
      ensures Valid() && 0 < n <= |bytes| && Contents() == old(Contents()) + bytes[..n]
      ensures buffers == old(buffers) || (buffers == old(buffers) + [Back()] && fresh(Back()) && fresh(Back().data))
      ensures forall b :: b in old(Tail()) ==> Kept(b)
    {
      hide Concat, Pieces;
      ghost var before := Contents();
      var buffer, offset, size := Next();
      n := if size < |bytes| then size else |bytes|;
      Store(bytes[..n], offset, size - n, before);
    }

    /** One round of WriteRaw. */
    method WriteRound(data: seq<Byte>, ghost was: seq<Byte>)
      requires Valid() && bytesCount < |data| && Contents() == was + data[..bytesCount]
      modifies this, Tail()`end, TailData()
      ensures Valid() && old(bytesCount) < bytesCount <= |data| && Contents() == was + data[..bytesCount]
      ensures buffers == old(buffers) || (buffers == old(buffers) + [Back()] && fresh(Back()) && fresh(Back().data))
      ensures forall b :: b in old(buffers) ==> Kept(b)
    {
      hide Concat, Pieces;
      var n := WriteSome(data[bytesCount..]);
      Appended(was, data[..bytesCount], data[bytesCount..][..n]);
      assert data[..bytesCount] + data[bytesCount..][..n] == data[..bytesCount + n];
      forall b | b in old(buffers) ensures Kept(b) {
        assert b == old(Back()) || b.data[..] == old(b.data[..]);
      }
      label written:
      bytesCount := bytesCount + n;
      SamePieces@written(buffers);
    }

    /** Appends exactly the data. Of the buffers there were, only the last may change, and only behind its end. */
    method WriteRaw(data: seq<Byte>) returns (ok: bool)
      requires Valid()
      modifies this, Tail()`end, TailData()
      ensures ok && Valid() && Contents() == old(Contents()) + data && bytesCount == |data|
      ensures old(buffers) <= buffers && forall b :: b in old(buffers) ==> Kept(b)
      ensures forall i :: |old(buffers)| <= i < |buffers| ==> fresh(buffers[i]) && fresh(buffers[i].data)
    {
      hide Concat, Pieces, Separate, Packed;
      label start:
      bytesCount := 0;
      Untouched@start();
      WriteAll(data);
      return true;
    }

    /** The loop of WriteRaw. */
    method WriteAll(data: seq<Byte>)
      requires Valid() && bytesCount == 0
      modifies this, Tail()`end, TailData()
      ensures Valid() && Contents() == old(Contents()) + data && bytesCount == |data|
      ensures old(buffers) <= buffers && forall b :: b in old(buffers) ==> Kept(b)
      ensures forall i :: |old(buffers)| <= i < |buffers| ==> fresh(buffers[i]) && fresh(buffers[i].data)
    {
      hide Concat, Pieces, Separate;
      ghost var was := Contents();
      assert was + data[..0] == was;
      while |data| - bytesCount > 0
        invariant bytesCount <= |data| && Valid()
        invariant Contents() == was + data[..bytesCount]
        invariant old(buffers) <= buffers
        invariant forall b :: b in old(buffers) ==> Kept(b)
        invariant forall i :: |old(buffers)| <= i < |buffers| ==> fresh(buffers[i]) && fresh(buffers[i].data)
      {
        label before:
        WriteRound(data, was);
        forall b | b in old(buffers) ensures Kept(b) {
          assert Kept@before(b);
          ShorterPrefix(b.data[..], old@before(b.data[..]), old@before(b.end), old(b.end));
        }
      }
      assert data[..bytesCount] == data;
    }

    lemma FrontPiece()
      requires Valid() && buffers != []
      ensures Separate(buffers[1..]) && Packed(buffers[1..])
      ensures Contents() == buffers[0].Bytes() + Concat(Pieces(buffers[1..]))
      ensures buffers[0].end < SEND_BUFFER_SIZE ==> Contents() == buffers[0].Bytes()
    {
      assert Packed(buffers[1..]) by {
        forall i | 0 <= i < |buffers| - 1 ensures buffers[1..][i] == buffers[i + 1] {}
      }
      ConcatCons(Pieces(buffers)[0], Pieces(buffers[1..]));
      assert Concat<Byte>([]) == [];
      hide Concat;
      assert Pieces(buffers) == [Pieces(buffers)[0]] + Pieces(buffers[1..]);
    }

    /** The queue depends on its buffers alone. */
    twostate lemma Untouched()
      requires old(Valid()) && buffers == old(buffers)
      requires forall b :: b in buffers ==> b.start == old(b.start) && b.end == old(b.end) && unchanged(b.data)
      ensures Valid() && Contents() == old(Contents())
    {
      SamePieces(buffers);
    }

    /** The first bytes of the queue, as they lie in the first buffer; used-up buffers are dropped. */
    method NextBuffer() returns (view: Option<BufferView>)
      requires Valid()
      modifies this`buffers
      ensures Valid() && Contents() == old(Contents())
      ensures |buffers| <= |old(buffers)| && buffers == old(buffers)[|old(buffers)| - |buffers|..]
      ensures view.None? <==> Contents() == []
      ensures view.Some? ==>
        && buffers != [] && view.value == BufferView(buffers[0], buffers[0].start, buffers[0].ByteCount())
        && view.value.length > 0 && buffers[0].Bytes() <= Contents()
    {
      hide Concat, Pieces, Separate;
      while |buffers| != 0
        invariant Valid() && Contents() == old(Contents())
        invariant |buffers| <= |old(buffers)| && buffers == old(buffers)[|old(buffers)| - |buffers|..]
      {
        var front := buffers[0];
        if front.ByteCount() == 0 && front.RemainingByteCount() == 0 {
          DropFront();
        } else {
          break;
        }
      }
      if |buffers| == 0 {
        NoBytes();
        return None;
      }
      var front := buffers[0];
      FrontPiece();
      if front.ByteCount() == 0 {
        return None;
      }
      return Some(BufferView(front, front.start, front.ByteCount()));
    }

    lemma NoBytes()
      requires Valid() && buffers == []
      ensures Contents() == []
    {
    }

    /** Takes off a first buffer that is full and has nothing left to send. */
    method DropFront()
      requires Valid() && buffers != [] && buffers[0].ByteCount() == buffers[0].RemainingByteCount() == 0
      modifies this`buffers
      ensures Valid() && buffers == old(buffers)[1..] && Contents() == old(Contents())
    {
      hide Concat, Pieces, Separate;
      FrontPiece();
      assert buffers[0].Bytes() + Concat(Pieces(buffers[1..])) == Concat(Pieces(buffers[1..]));
      label before:
      buffers := buffers[1..];
      SamePieces@before(buffers);
    }

    /** The socket has taken n bytes of the first buffer. */
    method Consume(n: nat)
      requires Valid() && buffers != [] && n <= buffers[0].ByteCount()
      modifies buffers[0]
      ensures Valid() && buffers[0].start == old(buffers[0].start) + n
      ensures old(Contents()) == buffers[0].data[old(buffers[0].start)..buffers[0].start] + Contents()
    {
      hide Concat, Pieces;
      var b := buffers[0];
      FrontPiece();
      ghost var rest := buffers[1..];
      assert forall x :: x in rest ==> x != b;
      label before:
      b.start := b.start + n;
      FrontPiece();
      SamePieces@before(rest);
      Appended(b.data[old(b.start)..b.start], b.Bytes(), Concat(Pieces(rest)));
    }

    method Clear()
      modifies this`buffers
      ensures Valid() && buffers == [] && Contents() == []
    {
      buffers := [];
    }
  }

  class StreamWriter {
    const output: OutputStream

    constructor (output: OutputStream)
      ensures this.output == output
    {
      this.output := output;
    }

    method WriteMessage(id: nat, data: seq<Byte>) returns (ok: bool)
      requires output.Valid()
      modifies output, output.Tail()`end, output.TailData()
      ensures ok && output.Valid() && output.Contents() == old(output.Contents()) + Encode(Message(id, data))
      ensures Laid(output.Contents()[|old(output.Contents())|..], id, data)
      ensures old(output.buffers) <= output.buffers && forall b :: b in old(output.buffers) ==> Kept(b)
      ensures forall i :: |old(output.buffers)| <= i < |output.buffers| ==>
        fresh(output.buffers[i]) && fresh(output.buffers[i].data)
    {
      hide Concat, Pieces, Separate;
      ghost var was := output.Contents();
      var header := EncodeHeader(Header(id, |data|));
      ok := output.WriteRaw(header);
      if !ok {
        return false;
      }
      label written:
      if |data| > 0 {
        ok := output.WriteRaw(data);
        if !ok {
          return false;
        }
        forall b | b in old(output.buffers) ensures Kept(b) {
          assert Kept@written(b);
          ShorterPrefix(b.data[..], old@written(b.data[..]), old@written(b.end), old(b.end));
        }
      }
      Appended(was, header, data);
      EncodedLayout(Message(id, data));
      assert output.Contents()[|was|..] == Encode(Message(id, data));
      hide Laid;
      return true;
    }
  }
}
