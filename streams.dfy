/** `readerToBytes`: draining a stream of byte chunks into a growable buffer. */
module Streams {
  import opened Basics

  /** The in-order concatenation of a sequence of chunks. */
  function Concat(chunks: seq<seq<byte>>): seq<byte>
    decreases |chunks|
  {
    if chunks == [] then [] else chunks[0] + Concat(chunks[1..])
  }

  /** Concatenation respects order: the bytes of earlier chunks come first, none are lost. */
  lemma {:induction false} ConcatAppend(a: seq<seq<byte>>, b: seq<seq<byte>>)
    ensures Concat(a + b) == Concat(a) + Concat(b)
    decreases |a|
  {
    if a != [] {
      assert (a + b)[1..] == a[1..] + b;
      ConcatAppend(a[1..], b);
    } else {
      assert a + b == b;
    }
  }

  /** The growable byte buffer the source writes chunks into (only writing and `bytes()` are
      used, and nothing is read back out of it). */
  class ByteBuffer {
    var content: seq<byte>

    constructor ()
      ensures content == []
    {
      content := [];
    }

    /** Appends `p`. */
    method Write(p: seq<byte>)
      modifies this
      ensures content == old(content) + p
    {
      content := content + p;
    }
  }

  /** A reader over a byte stream: the chunks not yet read. */
  class ChunkReader {
    var pending: seq<seq<byte>>

    constructor (chunks: seq<seq<byte>>)
      ensures pending == chunks
    {
      pending := chunks;
    }

    /** `read()`: `done` once the stream is exhausted, otherwise the next chunk. */
    method Read() returns (done: bool, value: seq<byte>)
      modifies this
      ensures done <==> old(pending) == []
      ensures done ==> pending == old(pending) && value == []
      ensures !done ==> value == old(pending)[0] && pending == old(pending)[1..]
    {
      done := pending == [];
      if done {
        value := [];
      } else {
        value := pending[0];
        pending := pending[1..];
      }
    }
  }

  /** Reads until `done`, writing every chunk into a buffer, and returns the buffer's bytes:
      the chunks in the order they were read, and the stream is left exhausted. */
  method ReaderToBytes(reader: ChunkReader) returns (bytes: seq<byte>)
    modifies reader
    ensures bytes == Concat(old(reader.pending))
    ensures reader.pending == []
  {
    var buf := new ByteBuffer();
    while true
      invariant buf.content + Concat(reader.pending) == Concat(old(reader.pending))
      decreases |reader.pending|
    {
      var done, value := reader.Read();
      if done {
        break;
      }
      buf.Write(value);
    }
    bytes := buf.content;
  }
}
