/** Chunk queues (src/chunk.c): the bytes of a connection in pieces, each with the part of it that
    has been used up. */
module ChunkQueues {

  type Bytes = seq<int>

  /** filled is false for a buffer that has never been written to (used == 0). offset bytes have
      been used up. */
  datatype Chunk =
    | MemChunk(bytes: Bytes, filled: bool, offset: nat)
    | FileChunk(bytes: Bytes, temp: bool, offset: nat)

  predicate ChunkOk(c: Chunk) {
    c.offset <= |c.bytes| && (c.MemChunk? && !c.filled ==> c.bytes == [])
  }

  predicate ChunksOk(cs: seq<Chunk>) {
    forall i | 0 <= i < |cs| :: ChunkOk(cs[i])
  }

  function Unread(c: Chunk): Bytes
    requires ChunkOk(c)
  {
    c.bytes[c.offset..]
  }

  /** The bytes still to be used, over all chunks. */
  function Stream(cs: seq<Chunk>): Bytes
    requires ChunksOk(cs)
  {
    if cs == [] then [] else Unread(cs[0]) + Stream(cs[1..])
  }

  /** All bytes of the chunks, used up or not. */
  function Total(cs: seq<Chunk>): Bytes {
    if cs == [] then [] else cs[0].bytes + Total(cs[1..])
  }

  lemma {:induction false} StreamConcat(a: seq<Chunk>, b: seq<Chunk>)
    requires ChunksOk(a) && ChunksOk(b)
    ensures ChunksOk(a + b) && Stream(a + b) == Stream(a) + Stream(b)
  {
    if a == [] {
      assert a + b == b;
    } else {
      assert (a + b)[1..] == a[1..] + b;
      StreamConcat(a[1..], b);
    }
  }

  lemma StreamOne(c: Chunk)
    requires ChunkOk(c)
    ensures Stream([c]) == Unread(c)
  {
    assert [c][1..] == [];
  }

  lemma {:induction false} TotalConcat(a: seq<Chunk>, b: seq<Chunk>)
    ensures Total(a + b) == Total(a) + Total(b)
  {
    if a == [] {
      assert a + b == b;
    } else {
      assert (a + b)[1..] == a[1..] + b;
      TotalConcat(a[1..], b);
    }
  }

  /** Nothing of the chunk is left: remove_finished_chunks moves it to the unused ones. */
  predicate Finished(c: Chunk) {
    (c.MemChunk? && !c.filled) || c.offset == |c.bytes|
  }

  /** The chunk with all of it used up. */
  function UsedUp(c: Chunk): Chunk {
    match c
    case MemChunk(bytes, filled, _) => MemChunk(bytes, filled, |bytes|)
    case FileChunk(bytes, temp, _) => FileChunk(bytes, temp, |bytes|)
  }

  /** The chunks without the finished ones at the front. */
  function DropFinished(cs: seq<Chunk>): (r: seq<Chunk>)
    requires ChunksOk(cs)
    ensures ChunksOk(r) && Stream(r) == Stream(cs)
  {
    if cs != [] && Finished(cs[0]) then DropFinished(cs[1..]) else cs
  }

  /** Chunks without unread bytes have gone from the front, as many as there were. */
  ghost predicate Trimmed(cs: seq<Chunk>, r: seq<Chunk>)
    requires ChunksOk(cs)
  {
    && |r| <= |cs| && r == cs[|cs| - |r|..]
    && (forall i | 0 <= i < |cs| - |r| :: Unread(cs[i]) == [])
    && (r != [] ==> Unread(r[0]) != [])
  }

  lemma {:induction false} DropsUsedUp(cs: seq<Chunk>)
    requires ChunksOk(cs)
    ensures Trimmed(cs, DropFinished(cs))
  {
    if cs != [] && Finished(cs[0]) {
      DropsUsedUp(cs[1..]);
      var n := |cs| - |DropFinished(cs)|;
      assert forall i | 1 <= i < n :: cs[i] == cs[1..][i - 1];
    }
  }

  class ChunkQueue {
    var chunks: seq<Chunk>
    var bytes_in: nat

    ghost predicate Valid()
      reads this
    {
      ChunksOk(chunks)
    }

    constructor ()
      ensures Valid() && chunks == [] && bytes_in == 0
    {
      chunks, bytes_in := [], 0;
    }

    /** chunkqueue_append_buffer and chunkqueue_append_mem: nothing is appended for a buffer that
        was never written to, or for a length that leaves no room for the terminating zero. */
    method AppendMem(bytes: Bytes, filled: bool)
      requires Valid() && (!filled ==> bytes == [])
      modifies `chunks
      ensures Valid() && chunks == old(chunks) + if filled then [MemChunk(bytes, true, 0)] else []
      ensures Stream(chunks) == old(Stream(chunks)) + bytes
    {
      if filled {
        StreamConcat(chunks, [MemChunk(bytes, true, 0)]);
        StreamOne(MemChunk(bytes, true, 0));
        chunks := chunks + [MemChunk(bytes, true, 0)];
      } else {
        assert chunks + [] == chunks;
      }
    }

    /** chunkqueue_append_file, with the bytes of the file's part. */
    method AppendFile(bytes: Bytes)
      requires Valid()
      modifies `chunks
      ensures Valid() && Stream(chunks) == old(Stream(chunks)) + bytes
    {
      if |bytes| == 0 { return; }
      StreamConcat(chunks, [FileChunk(bytes, false, 0)]);
      StreamOne(FileChunk(bytes, false, 0));
      chunks := chunks + [FileChunk(bytes, false, 0)];
    }

    /** chunkqueue_length: how many bytes the chunks hold, used up or not. */
    method Length() returns (len: nat)
      requires Valid()
      ensures len == |Total(chunks)|
    {
      len := 0;
      for i := 0 to |chunks|
        invariant len + |Total(chunks[i..])| == |Total(chunks)|
      {
        assert chunks[i..][1..] == chunks[i + 1..];
        len := len + |chunks[i].bytes|;
      }
      assert chunks[|chunks|..] == [];
    }

    /** chunkqueue_remove_finished_chunks. */
    method RemoveFinished()
      requires Valid()
      modifies `chunks
      ensures Valid() && chunks == DropFinished(old(chunks)) && Stream(chunks) == old(Stream(chunks))
      ensures chunks != [] ==> !Finished(chunks[0])
      ensures Trimmed(old(chunks), chunks)
    {
      DropsUsedUp(chunks);
      while chunks != []
        invariant Valid() && DropFinished(chunks) == DropFinished(old(chunks)) && Stream(chunks) == old(Stream(chunks))
        decreases |chunks|
      {
        if !Finished(chunks[0]) { break; }
        chunks := chunks[1..];
      }
    }

    /** chunkqueue_reset: mark everything as used up and remove it. */
    method Reset()
      requires Valid()
      modifies this
      ensures Valid() && chunks == [] && bytes_in == 0
    {
      var n := |chunks|;
      for i := 0 to n
        invariant |chunks| == n && Valid() && forall k | 0 <= k < i :: Finished(chunks[k])
      {
        chunks := chunks[i := UsedUp(chunks[i])];
      }
      AllFinished(chunks);
      RemoveFinished();
      bytes_in := 0;
    }
  }

  lemma {:induction false} AllFinished(cs: seq<Chunk>)
    requires ChunksOk(cs) && forall k | 0 <= k < |cs| :: Finished(cs[k])
    ensures DropFinished(cs) == []
  {
    if cs != [] { AllFinished(cs[1..]); }
  }
}
