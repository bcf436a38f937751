/**
 * The queue of received chunks behind the stream that DTLS and SCTP read from: bytes come out in the order they came in,
 * whatever the reader's buffer sizes (src/application.rs, src/transport/mod.rs).
 */
module ChunkQueues {
  import opened Prelude
  import opened Wire

  datatype ReadError = WouldBlock | EmptyChunk

  function Joined(chunks: seq<Bytes>): Bytes {
    if chunks == [] then [] else chunks[0] + Joined(chunks[1..])
  }

  lemma {:induction false} JoinedWithLast(chunks: seq<Bytes>, chunk: Bytes)
    ensures Joined(chunks + [chunk]) == Joined(chunks) + chunk
  {
    if chunks == [] {
      assert Joined([chunk]) == chunk + Joined([]);
    } else {
      assert (chunks + [chunk])[1..] == chunks[1..] + [chunk];
      JoinedWithLast(chunks[1..], chunk);
      assert chunks[0] + (Joined(chunks[1..]) + chunk) == (chunks[0] + Joined(chunks[1..])) + chunk;
    }
  }

  class ChunkQueue {
    var readQueue: seq<Bytes>
    var readIndex: nat
    /** Everything ever queued, and everything ever read. */
    ghost var queued: Bytes
    ghost var taken: Bytes

    /** Nothing is lost, repeated or reordered. */
    ghost predicate Valid()
      reads this
    {
      && (readIndex > 0 ==> readQueue != [] && readIndex < |readQueue[0]|)
      && readIndex <= |Joined(readQueue)|
      && queued == taken + Joined(readQueue)[readIndex..]
    }

    constructor ()
      ensures Valid() && readQueue == [] && queued == [] && taken == []
    {
      readQueue, readIndex, queued, taken := [], 0, [], [];
    }

    method Queue(chunk: Bytes)
      requires Valid()
      modifies `readQueue, `queued
      ensures Valid() && readQueue == old(readQueue) + [chunk] && queued == old(queued) + chunk
    {
      JoinedWithLast(readQueue, chunk);
      Cut(Joined(readQueue), chunk, readIndex);
      queued := queued + chunk;
      readQueue := readQueue + [chunk];
    }

    /**
     * Reads into a buffer of `capacity` bytes: as much of the oldest chunk as fits. An empty chunk at the front is where
     * the source's assertion fails.
     */
    method Read(capacity: nat) returns (result: Result<Bytes, ReadError>)
      requires Valid()
      modifies `readQueue, `readIndex, `taken
      ensures Valid()
      ensures result == Err(WouldBlock) <==> old(readQueue) == []
      ensures result == Err(EmptyChunk) <==> old(readQueue) != [] && old(readQueue)[0] == []
      ensures match result
              case Ok(bytes) =>
                var left := |old(readQueue)[0]| - old(readIndex);
                taken == old(taken) + bytes && |bytes| == if capacity < left then capacity else left
              case Err(_) => unchanged(this)
    {
      hide Joined;
      if |readQueue| == 0 {
        return Err(WouldBlock);
      }
      var buffer := readQueue[0];
      if |buffer| <= readIndex {
        return Err(EmptyChunk);
      }
      var written := if capacity < |buffer| - readIndex then capacity else |buffer| - readIndex;
      var bytes := buffer[readIndex..readIndex + written];
      ReadStep(readQueue, readIndex, written);
      Associative(taken, bytes, Joined(readQueue)[readIndex + written..]);
      if written + readIndex == |buffer| {
        readQueue := readQueue[1..];
        readIndex := 0;
      } else {
        readIndex := readIndex + written;
      }
      taken := taken + bytes;
      result := Ok(bytes);
    }
  }

  lemma ReadStep(chunks: seq<Bytes>, index: nat, count: nat)
    requires chunks != [] && index + count <= |chunks[0]|
    ensures index + count <= |Joined(chunks)|
    ensures Joined(chunks)[index..] == chunks[0][index..index + count] + Joined(chunks)[index + count..]
    ensures index + count == |chunks[0]| ==> Joined(chunks)[index + count..] == Joined(chunks[1..])
  {
    var buffer, rest := chunks[0], Joined(chunks[1..]);
    Cut(buffer, rest, index);
    Cut(buffer, rest, index + count);
    assert buffer[index..] == buffer[index..index + count] + buffer[index + count..];
    Associative(buffer[index..index + count], buffer[index + count..], rest);
  }

  lemma Associative(x: Bytes, y: Bytes, z: Bytes)
    ensures (x + y) + z == x + (y + z)
  {
  }

  lemma Cut(x: Bytes, y: Bytes, at: nat)
    requires at <= |x|
    ensures (x + y)[at..] == x[at..] + y
  {
  }
}
