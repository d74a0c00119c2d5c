/** The growable stream under the decoders: bytes, a read cursor and a write cursor. */
module MemoryStreams {
  import opened Bytes

  /** What `_ReadSpan` does to an element of which only some bytes arrived when it has to reverse them: it walks past the
      end of what it read.  No value is defined then. */
  datatype Read32 = Undefined32 | Value32(value: nat)

  /** `Read<uint32_t>` in the other byte order: nothing left reads as zero. */
  function PeekBe32(data: seq<byte>, cursor: nat): (r: Read32)
    requires cursor <= |data|
  {
    if cursor + 4 <= |data| then Value32(Be32(data, cursor))
    else if cursor == |data| then Value32(0)
    else Undefined32
  }

  function Taken(data: seq<byte>, cursor: nat, n: nat): nat
    requires cursor <= |data|
  {
    if cursor + n <= |data| then n else |data| - cursor
  }

  /** The first `n` bytes, with zeros for those that are missing. */
  function FirstBytes(data: seq<byte>, n: nat): seq<byte> {
    if n <= |data| then data[..n] else data + Zeros(n - |data|)
  }

  class GrowableMemoryStream {
    var data: seq<byte>
    var readCursor: nat
    var writeCursor: nat

    constructor ()
      ensures data == [] && readCursor == 0 && writeCursor == 0
    {
      data, readCursor, writeCursor := [], 0, 0;
    }

    predicate CanRead(amount: nat)
      reads this
    {
      readCursor + amount <= |data|
    }

    /** Writes over what is at the cursor and grows by the rest; zeros fill a gap between the end and the cursor. */
    method Write(bytes: seq<byte>)
      modifies this
      ensures writeCursor == old(writeCursor) + |bytes| && readCursor == old(readCursor)
      ensures data == FirstBytes(old(data), old(writeCursor)) + bytes +
        if writeCursor <= |old(data)| then old(data)[writeCursor..] else []
    {
      if |data| < writeCursor + |bytes| {
        data := data + Zeros(writeCursor + |bytes| - |data|);
      }
      data := data[..writeCursor] + bytes + data[writeCursor + |bytes|..];
      writeCursor := writeCursor + |bytes|;
    }

    method SeekRead(offset: nat)
      modifies this`readCursor
      ensures readCursor == if offset <= |data| then offset else |data|
    {
      readCursor := if offset <= |data| then offset else |data|;
    }

    method SkipRead(offset: nat)
      modifies this`readCursor
      ensures readCursor == old(readCursor) + offset
    {
      readCursor := readCursor + offset;
    }

    /** Copies what is left, `n` bytes at most, and advances over it. */
    method ReadBytes(n: nat) returns (bytes: seq<byte>)
      requires readCursor <= |data|
      modifies this`readCursor
      ensures readCursor == old(readCursor) + Taken(data, old(readCursor), n)
      ensures bytes == data[old(readCursor)..readCursor]
    {
      var length := Taken(data, readCursor, n);
      bytes := data[readCursor..readCursor + length];
      readCursor := readCursor + length;
    }

    /** `Read<uint8_t>`: nothing left reads as zero. */
    method ReadU8() returns (b: byte)
      requires readCursor <= |data|
      modifies this`readCursor
      ensures b == if old(readCursor) < |data| then data[old(readCursor)] else 0
      ensures readCursor == old(readCursor) + Taken(data, old(readCursor), 1)
    {
      var bytes := ReadBytes(1);
      b := if |bytes| == 1 then bytes[0] else 0;
    }

    method ReadBe32() returns (r: Read32)
      requires readCursor <= |data|
      modifies this`readCursor
      ensures r == PeekBe32(data, old(readCursor))
      ensures readCursor == old(readCursor) + Taken(data, old(readCursor), 4)
    {
      ghost var at := readCursor;
      var bytes := ReadBytes(4);
      if |bytes| == 4 { r := Value32(Be32(bytes, 0)); }
      else if |bytes| == 0 { r := Value32(0); }
      else { r := Undefined32; }
    }
  }
}
