/** The output ring buffer (xmcomp/src/ringbuffer.c) and its consumer (xmcomp/src/writer.c). */

/** The ring as a value, and its operations. */
module Rings {
  datatype Ring = Ring(buf: string, read: nat, write: nat, size: nat)
  {
    predicate Valid() {
      && 0 < |buf| && read < |buf| && size <= |buf|
      && write == At(size)
    }

    /** The position `i` bytes after the read position, going round the end. */
    function At(i: nat): int {
      if read + i < |buf| then read + i else read + i - |buf|
    }

    /** The bytes written and not released. */
    function Pending(): (p: string)
      requires Valid()
      ensures |p| == size
    {
      seq(size, i requires 0 <= i < size => buf[At(i)])
    }

    /** How much can be written in one piece from the write position. */
    function Continuous(): nat
      requires Valid()
    {
      if write <= read && size > 0 then read - write else |buf| - write
    }

    /** How much can be read in one piece. */
    function Chunk(): nat
      requires Valid()
    {
      if |buf| - read > size then size else |buf| - read
    }

    /** One turn of the loop of ringbuffer_write: as much of `bytes` as fits in one piece. */
    function Copied(bytes: string): nat
      requires Valid()
    {
      if Continuous() > |bytes| then |bytes| else Continuous()
    }

    function Copy(bytes: string): Ring
      requires Valid()
    {
      var n := Copied(bytes);
      var end := write + n;
      Ring(Overwrite(buf, write, bytes[..n]), read, if end == |buf| then 0 else end, size + n)
    }

    /** The two halves of such a turn: the bytes are put behind those pending, and counted. */
    function Put(bytes: string): Ring
      requires Valid()
    {
      Ring(Overwrite(buf, write, bytes[..Copied(bytes)]), read, write, size)
    }

    function Count(n: nat): Ring {
      var end := write + n;
      Ring(buf, read, if end == |buf| then 0 else end, size + n)
    }

    function Release(n: nat): Ring
      requires Valid() && n <= Chunk()
    {
      var end := read + n;
      Ring(buf, if end == |buf| then 0 else end, write, size - n)
    }
  }

  /** memcpy of `bytes` to position `at`. */
  function Overwrite(buf: string, at: nat, bytes: string): (r: string)
    requires at + |bytes| <= |buf|
    ensures |r| == |buf|
    ensures forall i :: 0 <= i < |buf| ==> r[i] == if at <= i < at + |bytes| then bytes[i - at] else buf[i]
  {
    buf[..at] + bytes + buf[at + |bytes|..]
  }

  // ----- Laws -----

  /** A write has room exactly when the ring is not full. */
  lemma {:induction false} RoomUnlessFull(r: Ring)
    requires r.Valid()
    ensures r.Continuous() == 0 <==> r.size == |r.buf|
    ensures r.size + r.Continuous() <= |r.buf|
  {
  }

  /** Copying appends to the pending bytes, and leaves those already pending in place. */
  lemma {:induction false} CopyAppends(r: Ring, bytes: string)
    requires r.Valid()
    ensures var n := r.Copied(bytes);
            && n <= |bytes|
            && r.Copy(bytes).Valid()
            && r.Copy(bytes).Pending() == r.Pending() + bytes[..n]
            && forall i :: 0 <= i < r.size ==> r.Copy(bytes).buf[r.At(i)] == r.buf[r.At(i)]
  {
    var n := r.Copied(bytes);
    var c := r.Copy(bytes);
    forall i | 0 <= i < c.size
      ensures c.Pending()[i] == (r.Pending() + bytes[..n])[i]
    {
    }
  }

  /** Bytes that are put and not counted yet disturb nothing that is pending, and wait where
   *  they will be counted. */
  lemma {:induction false} PutDisturbsNothing(r: Ring, bytes: string)
    requires r.Valid()
    ensures var n, p := r.Copied(bytes), r.Put(bytes);
            && n <= |bytes| && r.write + n <= |r.buf|
            && p.Valid() && p.Copied(bytes) == n && p.Pending() == r.Pending()
            && p.buf[p.write..p.write + n] == bytes[..n]
            && forall i :: 0 <= i < r.size ==> p.buf[r.At(i)] == r.buf[r.At(i)]
  {
    CopyAppends(r, bytes);
    assert r.Put(bytes).buf == r.Copy(bytes).buf;
  }

  /** Counting bytes that are in place is a whole turn. */
  lemma {:induction false} CountCompletes(r: Ring, bytes: string)
    requires r.Valid() && var n := r.Copied(bytes); n <= |bytes| && r.write + n <= |r.buf|
    requires var n := r.Copied(bytes); r.buf[r.write..r.write + n] == bytes[..n]
    ensures r.Count(r.Copied(bytes)) == r.Copy(bytes)
  {
    var n := r.Copied(bytes);
    forall i | r.write <= i < r.write + n
      ensures r.buf[i] == bytes[i - r.write]
    {
      assert r.buf[i] == r.buf[r.write..r.write + n][i - r.write];
    }
  }

  /** Releasing drops the oldest pending bytes. */
  lemma {:induction false} ReleaseDrops(r: Ring, n: nat)
    requires r.Valid() && n <= r.Chunk()
    ensures r.Release(n).Valid()
    ensures r.Release(n).Pending() == r.Pending()[n..]
  {
    var c := r.Release(n);
    forall i | 0 <= i < c.size
      ensures c.Pending()[i] == r.Pending()[n..][i]
    {
    }
  }

  /** A chunk is the oldest pending bytes, in one piece, and not empty unless all is. */
  lemma {:induction false} ChunkIsOldest(r: Ring)
    requires r.Valid()
    ensures r.Chunk() <= r.size && r.read + r.Chunk() <= |r.buf|
    ensures r.buf[r.read..r.read + r.Chunk()] == r.Pending()[..r.Chunk()]
    ensures r.Chunk() == 0 <==> r.size == 0
  {
  }

  /** Part of a chunk goes out, and the rest stays pending. */
  lemma {:induction false} PartOfChunk(r: Ring, n: nat)
    requires r.Valid() && n <= r.Chunk()
    ensures r.read + n <= |r.buf| && n <= r.size
    ensures r.buf[r.read..r.read + n] + r.Release(n).Pending() == r.Pending()
    ensures r.Release(n).Valid()
  {
    ChunkIsOldest(r);
    ReleaseDrops(r, n);
    assert r.buf[r.read..r.read + n] == r.buf[r.read..r.read + r.Chunk()][..n];
    assert r.Pending() == r.Pending()[..n] + r.Pending()[n..];
  }
}

/** The ring buffer as the program has it. */
module RingBuffers {
  import opened Rings

  class RingBuffer {
    var data: array<char>
    var readPosition: nat
    var writePosition: nat
    var dataSize: nat

    ghost function Value(): Ring
      reads this, data
    {
      Ring(data[..], readPosition, writePosition, dataSize)
    }

    ghost predicate Valid()
      reads this, data
    {
      Value().Valid()
    }

    constructor (buffer: array<char>)
      requires buffer.Length > 0
      ensures Valid() && data == buffer && Value().Pending() == ""
    {
      data := buffer;
      readPosition, writePosition, dataSize := 0, 0, 0;
    }

    /** One turn of the write loop; 0 when there is no room. */
    method CopyOnce(bytes: string) returns (n: nat)
      requires Valid()
      modifies this`writePosition, this`dataSize, data
      ensures n == old(Value()).Copied(bytes) && Value() == old(Value()).Copy(bytes)
    {
      ghost var before := Value();
      RoomUnlessFull(before);
      var continuous;
      if writePosition <= readPosition && dataSize > 0 {
        continuous := readPosition - writePosition;
      } else {
        continuous := data.Length - writePosition;
      }
      n := if continuous > |bytes| then |bytes| else continuous;
      assert n == before.Copied(bytes);
      var i := 0;
      while i < n
        invariant i <= n && writePosition + n <= data.Length
        invariant writePosition == before.write && dataSize == before.size
        invariant forall j :: 0 <= j < data.Length ==>
                    data[j] == if writePosition <= j < writePosition + i then bytes[j - writePosition] else old(data[j])
      {
        data[writePosition + i] := bytes[i];
        i := i + 1;
      }
      assert data[..] == Overwrite(before.buf, before.write, bytes[..n]);
      writePosition := writePosition + n;
      if writePosition == data.Length {
        writePosition := 0;
      }
      dataSize := dataSize + n;
      assert Value() == before.Copy(bytes);
    }

    /** What one turn does to the pending bytes. */
    method CopyTurn(bytes: string) returns (n: nat)
      requires Valid() && bytes != ""
      modifies this`writePosition, this`dataSize, data
      ensures Valid() && n <= |bytes| && dataSize == old(dataSize) + n <= data.Length
      ensures n == 0 ==> dataSize == data.Length
      ensures Value().Pending() == old(Value().Pending()) + bytes[..n]
      ensures forall i :: 0 <= i < old(dataSize) ==> data[Position(i)] == old(data[Position(i)])
    {
      RoomUnlessFull(Value());
      CopyAppends(Value(), bytes);
      n := CopyOnce(bytes);
    }

    ghost function Position(i: nat): (p: nat)
      requires Valid() && i < dataSize
      reads this, data
      ensures p < data.Length && p == Value().At(i)
    {
      Value().At(i)
    }

    /** ringbuffer_write up to its first wait: the bytes are appended in one piece, all of
     *  them unless the ring fills up; bytes pending before stay where they are. */
    method Write(bytes: string) returns (done: nat)
      requires Valid()
      modifies this`writePosition, this`dataSize, data
      ensures Valid()
      ensures done == if old(dataSize) + |bytes| <= data.Length then |bytes| else data.Length - old(dataSize)
      ensures Value().Pending() == old(Value().Pending()) + bytes[..done]
      ensures dataSize == old(dataSize) + done
      ensures forall i :: 0 <= i < old(dataSize) ==> data[Position(i)] == old(data[Position(i)])
    {
      done := 0;
      while done < |bytes|
        invariant done <= |bytes| && Valid() && dataSize == old(dataSize) + done <= data.Length
        invariant Value().Pending() == old(Value().Pending()) + bytes[..done]
        invariant forall i :: 0 <= i < old(dataSize) ==> data[Position(i)] == old(data[Position(i)])
      {
        var n := CopyTurn(bytes[done..]);
        if n == 0 {
          // The program waits here for a release, without the lock.
          return;
        }
        assert bytes[..done + n] == bytes[..done] + bytes[done..][..n];
        done := done + n;
      }
      assert bytes[..done] == bytes;
    }

    /** ringbuffer_get_chunk; 0 when the program waits for data. */
    method GetChunk() returns (n: nat)
      requires Valid()
      ensures n == Value().Chunk()
    {
      var delta := data.Length - readPosition;
      n := if delta > dataSize then dataSize else delta;
    }

    method ReleaseChunk(n: nat)
      requires Valid() && n <= Value().Chunk()
      modifies this`readPosition, this`dataSize
      ensures Value() == old(Value()).Release(n)
    {
      readPosition := readPosition + n;
      if readPosition == data.Length {
        readPosition := 0;
      }
      dataSize := dataSize - n;
    }

    /** One turn of the consumer: a chunk is taken, the network accepts some of it, and
     *  that much is released. */
    method SendChunk(accept: nat) returns (piece: string)
      requires Valid()
      modifies this`readPosition, this`dataSize
      ensures Valid() && old(Value().Pending()) == piece + Value().Pending()
      ensures accept > 0 && old(dataSize) > 0 ==> piece != ""
      ensures |piece| <= accept
    {
      var size := GetChunk();
      var sent := if accept < size then accept else size;
      PartOfChunk(Value(), sent);
      piece := data[readPosition..readPosition + sent];
      assert piece == Value().buf[readPosition..readPosition + sent];
      ReleaseChunk(sent);
    }

    /** The loop of writer_thread_entry while nobody writes: `accepts` says how much the
     *  network takes of each chunk at most. What goes out is what was pending, in order. */
    method Drain(accepts: seq<nat>) returns (out: string)
      requires Valid()
      modifies this`readPosition, this`dataSize
      ensures Valid() && out + Value().Pending() == old(Value().Pending())
      ensures (forall k :: 0 <= k < |accepts| ==> accepts[k] > 0) ==> dataSize == 0 || |out| >= |accepts|
    {
      out := "";
      var turn := 0;
      while turn < |accepts|
        invariant turn <= |accepts| && Valid()
        invariant out + Value().Pending() == old(Value().Pending())
        invariant (forall k :: 0 <= k < |accepts| ==> accepts[k] > 0) ==> |out| >= turn
      {
        if dataSize == 0 {
          return;
        }
        var piece := SendChunk(accepts[turn]);
        assert out + (piece + Value().Pending()) == out + piece + Value().Pending();
        out := out + piece;
        turn := turn + 1;
      }
    }
  }
}
