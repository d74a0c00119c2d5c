/** The batch decoder as an object: chunks are appended to one growable buffer. */
module BatchLoader {
  import opened Bytes
  import opened BatchFormat
  import opened BlockStream
  import opened MemoryStreams

  datatype Step = Refused | OutOfBounds | Loaded

  /** An entry of the table, or nothing when a number is cut short. */
  method TakeEntry(stream: GrowableMemoryStream) returns (chunk: Option<Chunk>)
    requires stream.readCursor <= |stream.data|
    modifies stream`readCursor
    ensures match PeekEntry(stream.data, old(stream.readCursor))
      case None => chunk.None?
      case Some((c, next)) => chunk == Some(c) && stream.readCursor == next
  {
    var compressed := stream.ReadBe32();
    if compressed.Undefined32? { return None; }
    var decompressed := stream.ReadBe32();
    if decompressed.Undefined32? { return None; }
    var checksum := stream.ReadBytes(16);
    chunk := Some(Chunk(compressed.value, decompressed.value, checksum + Zeros(16 - |checksum|)));
  }

  /** The offsets that the source computes along the way are those of the format. */
  ghost predicate OffsetsAre(headerSize: nat, chunks: seq<Chunk>, offsets: seq<nat>) {
    |offsets| == |chunks| && forall i | 0 <= i < |chunks| :: offsets[i] == OffsetOf(headerSize, chunks, i)
  }

  lemma {:induction false} WireNext(chunks: seq<Chunk>, last: Chunk)
    ensures Wire(chunks + [last]) == Wire(chunks) + last.compressedSize
  {
    if chunks == [] {
      assert chunks + [last] == [last] && Wire([last][1..]) == 0;
    } else {
      assert (chunks + [last])[1..] == chunks[1..] + [last];
      WireNext(chunks[1..], last);
    }
  }

  lemma OffsetsNext(headerSize: nat, chunks: seq<Chunk>, offsets: seq<nat>, chunk: Chunk, offset: nat)
    requires OffsetsAre(headerSize, chunks, offsets)
    requires offset == if chunks == [] then headerSize else offsets[|chunks| - 1] + chunks[|chunks| - 1].compressedSize
    ensures OffsetsAre(headerSize, chunks + [chunk], offsets + [offset])
  {
    var all := chunks + [chunk];
    forall i | 0 <= i <= |chunks| ensures all[..i] == chunks[..i] {}
    if chunks != [] {
      var n := |chunks| - 1;
      assert chunks[..n] + [chunks[n]] == chunks[..n + 1];
      WireNext(chunks[..n], chunks[n]);
    }
  }

  ghost predicate Completes(whole: Option<seq<Chunk>>, done: seq<Chunk>, rest: Option<seq<Chunk>>) {
    match rest
    case None => whole.None?
    case Some(chunks) => whole == Some(done + chunks)
  }

  lemma CompletesNext(whole: Option<seq<Chunk>>, done: seq<Chunk>, data: seq<byte>, at: nat, n: nat, chunk: Chunk, next: nat)
    requires at <= |data| && n > 0 && Completes(whole, done, PeekTable(data, at, n))
    requires PeekEntry(data, at) == Some((chunk, next))
    ensures Completes(whole, done + [chunk], PeekTable(data, next, n - 1))
  {
    var rest := PeekTable(data, next, n - 1);
    if rest.Some? { assert done + ([chunk] + rest.value) == (done + [chunk]) + rest.value; }
  }

  /** One turn of the loop over the table: a chunk starts where the one before ends. */
  method TakeNext(stream: GrowableMemoryStream, headerSize: nat, chunks: seq<Chunk>, offsets: seq<nat>)
    returns (chunk: Option<Chunk>, more: seq<nat>)
    requires stream.readCursor <= |stream.data| && OffsetsAre(headerSize, chunks, offsets)
    modifies stream`readCursor
    ensures match PeekEntry(stream.data, old(stream.readCursor))
      case None => chunk.None?
      case Some((c, next)) => chunk == Some(c) && stream.readCursor == next && OffsetsAre(headerSize, chunks + [c], more)
  {
    more := offsets;
    chunk := TakeEntry(stream);
    if chunk.None? { return; }
    var i := |chunks|;
    var offset := if i == 0 then headerSize else offsets[i - 1] + chunks[i - 1].compressedSize;
    OffsetsNext(headerSize, chunks, offsets, chunk.value, offset);
    more := offsets + [offset];
  }

  method TakeTable(stream: GrowableMemoryStream, headerSize: nat, chunkCount: nat) returns (chunks: Option<seq<Chunk>>, offsets: seq<nat>)
    requires stream.readCursor <= |stream.data|
    modifies stream`readCursor
    ensures chunks == PeekTable(stream.data, old(stream.readCursor), chunkCount)
    ensures chunks.Some? ==> OffsetsAre(headerSize, chunks.value, offsets)
  {
    ghost var whole := PeekTable(stream.data, stream.readCursor, chunkCount);
    var done: seq<Chunk> := [];
    offsets := [];
    if whole.Some? { assert done + whole.value == whole.value; }
    for i := 0 to chunkCount
      invariant stream.readCursor <= |stream.data| && OffsetsAre(headerSize, done, offsets)
      invariant Completes(whole, done, PeekTable(stream.data, stream.readCursor, chunkCount - i))
    {
      ghost var at := stream.readCursor;
      var chunk, more := TakeNext(stream, headerSize, done, offsets);
      if chunk.None? { return None, []; }
      CompletesNext(whole, done, stream.data, at, chunkCount - i, chunk.value, stream.readCursor);
      done, offsets := done + [chunk.value], more;
    }
    assert done + [] == done;
    chunks := Some(done);
  }

  class Blte {
    const dataBuffer: GrowableMemoryStream

    ghost predicate Valid()
      reads this, dataBuffer
    {
      dataBuffer.writeCursor == |dataBuffer.data|
    }

    constructor ()
      ensures Valid() && fresh(dataBuffer) && dataBuffer.data == []
    {
      dataBuffer := new GrowableMemoryStream();
    }

    method Append(bytes: seq<byte>)
      requires Valid()
      modifies dataBuffer
      ensures Valid() && dataBuffer.data == old(dataBuffer.data) + bytes
    {
      dataBuffer.Write(bytes);
      assert dataBuffer.data == old(dataBuffer.data) + bytes;
    }

    /** Decodes the chunk at the stream's cursor into the buffer. */
    method Load(codec: Codec, stream: GrowableMemoryStream, offset: nat, chunk: Chunk) returns (step: Step)
      requires Valid() && stream != dataBuffer
      requires stream.readCursor == if offset <= |stream.data| then offset else |stream.data|
      modifies dataBuffer
      ensures match LoadChunk(codec, stream.data, offset, chunk)
        case Rejected => step.Refused?
        case Undefined => step.OutOfBounds?
        case Accepted(content) => step.Loaded? && Valid() && dataBuffer.data == old(dataBuffer.data) + content
    {
      if stream.readCursor + chunk.compressedSize > |stream.data| { return Refused; }
      var chunkSpan := stream.data[stream.readCursor..stream.readCursor + chunk.compressedSize];
      if codec.digest(chunkSpan) != chunk.checksum { return Refused; }
      if |chunkSpan| == 0 { return OutOfBounds; }
      if chunkSpan[0] == MODE_PLAIN {
        Append(chunkSpan[1..]);
        return Loaded;
      }
      if chunkSpan[0] != MODE_DEFLATED { return Refused; }
      var inflated := Inflate(codec, chunkSpan[1..]);
      if !inflated.ok { return Refused; }
      Append(inflated.output);
      step := Loaded;
    }

    lemma NextChunk(codec: Codec, data: seq<byte>, headerSize: nat, chunks: seq<Chunk>, i: nat)
      requires i < |chunks|
      ensures OffsetOf(headerSize, chunks, i + 1) == OffsetOf(headerSize, chunks, i) + chunks[i].compressedSize
      ensures chunks[i..][0] == chunks[i] && chunks[i..][1..] == chunks[i + 1..]
    {
      assert chunks[..i + 1] == chunks[..i] + [chunks[i]];
      WireNext(chunks[..i], chunks[i]);
    }

    /** The loop over the chunks, each at its offset. */
    method LoadAll(codec: Codec, stream: GrowableMemoryStream, ghost headerSize: nat, chunks: seq<Chunk>, offsets: seq<nat>)
      returns (step: Step)
      requires Valid() && stream != dataBuffer && dataBuffer.data == [] && OffsetsAre(headerSize, chunks, offsets)
      modifies dataBuffer, stream`readCursor
      ensures match LoadChunks(codec, stream.data, headerSize, chunks)
        case Rejected => step.Refused?
        case Undefined => step.OutOfBounds?
        case Accepted(output) => step.Loaded? && Valid() && dataBuffer.data == output
    {
      assert chunks[..0] == [] && chunks[0..] == chunks;
      for i := 0 to |chunks|
        invariant Valid() && stream.data == old(stream.data)
        invariant Continues(LoadChunks(codec, stream.data, headerSize, chunks), dataBuffer.data,
                            LoadChunks(codec, stream.data, OffsetOf(headerSize, chunks, i), chunks[i..]))
      {
        NextChunk(codec, stream.data, headerSize, chunks, i);
        ghost var offset, before := OffsetOf(headerSize, chunks, i), dataBuffer.data;
        stream.SeekRead(offsets[i]);
        var loaded := Load(codec, stream, offsets[i], chunks[i]);
        if !loaded.Loaded? { return loaded; }
        ContinuesNext(codec, stream.data, headerSize, chunks, i, before);
      }
      step := Loaded;
    }
  }

  /** What is in the buffer and what the remaining chunks give make the whole. */
  ghost predicate Continues(whole: Result, done: seq<byte>, rest: Result) {
    match rest
    case Accepted(output) => whole == Accepted(done + output)
    case other => whole == other
  }

  lemma ContinuesNext(codec: Codec, data: seq<byte>, headerSize: nat, chunks: seq<Chunk>, i: nat, done: seq<byte>)
    requires i < |chunks|
    requires LoadChunk(codec, data, OffsetOf(headerSize, chunks, i), chunks[i]).Accepted?
    requires OffsetOf(headerSize, chunks, i + 1) == OffsetOf(headerSize, chunks, i) + chunks[i].compressedSize
    requires Continues(LoadChunks(codec, data, headerSize, chunks), done,
                       LoadChunks(codec, data, OffsetOf(headerSize, chunks, i), chunks[i..]))
    ensures var content := LoadChunk(codec, data, OffsetOf(headerSize, chunks, i), chunks[i]).output;
      Continues(LoadChunks(codec, data, headerSize, chunks), done + content,
                LoadChunks(codec, data, OffsetOf(headerSize, chunks, i + 1), chunks[i + 1..]))
  {
    assert chunks[i..][1..] == chunks[i + 1..];
    var content := LoadChunk(codec, data, OffsetOf(headerSize, chunks, i), chunks[i]).output;
    var rest := LoadChunks(codec, data, OffsetOf(headerSize, chunks, i + 1), chunks[i + 1..]);
    if rest.Accepted? { assert done + (content + rest.output) == (done + content) + rest.output; }
  }

  /** The magic number, the sizes and the table. */
  method TakeHead(stream: GrowableMemoryStream) returns (head: Head, offsets: seq<nat>)
    requires stream.readCursor == 0
    modifies stream`readCursor
    ensures head == ReadHead(stream.data)
    ensures head.Head? ==> OffsetsAre(head.headerSize, head.chunks, offsets)
  {
    offsets := [];
    var magic := stream.ReadBe32();
    if magic.Undefined32? { return NoHead(Undefined), []; }
    if magic.value != MAGIC { return NoHead(Rejected), []; }
    var headerSize := stream.ReadBe32();
    if headerSize.Undefined32? { return NoHead(Undefined), []; }
    var flagsChunkCount := stream.ReadBe32();
    if flagsChunkCount.Undefined32? { return NoHead(Undefined), []; }
    var chunkCount := flagsChunkCount.value % 0x100_0000;
    var chunks, starts := TakeTable(stream, headerSize.value, chunkCount);
    if chunks.None? { return NoHead(Undefined), []; }
    head, offsets := Head(headerSize.value, flagsChunkCount.value, chunks.value), starts;
  }

  /** `_Parse`: with or without keys, from the start of a stream. */
  method ParseArchive(codec: Codec, keys: Keys, stream: GrowableMemoryStream) returns (step: Step, blte: Blte)
    requires stream.readCursor == 0
    modifies stream`readCursor
    ensures fresh(blte) && fresh(blte.dataBuffer)
    ensures match Decode(codec, keys, stream.data)
      case Rejected => step.Refused?
      case Undefined => step.OutOfBounds?
      case Accepted(output) => step.Loaded? && blte.dataBuffer.data == output
  {
    blte := new Blte();
    var head, offsets := TakeHead(stream);
    if head.NoHead? { return if head.result.Rejected? then Refused else OutOfBounds, blte; }
    var checksum := keys.headerDigest(head.headerSize, head.flagsChunkCount, head.chunks);
    if keys.ekey.Some? && keys.ekey.value != checksum { return Refused, blte; }
    step := blte.LoadAll(codec, stream, head.headerSize, head.chunks, offsets);
    if !step.Loaded? { return; }
    if keys.ckey.Some? && codec.digest(blte.dataBuffer.data) != keys.ckey.value { return Refused, blte; }
  }
}
