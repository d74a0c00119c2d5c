/** Block-table encoded archives decoded in one go: a header, a table of chunks, and chunks at computed offsets. */
module BatchFormat {
  import opened Bytes
  import opened Concatenation
  import opened MemoryStreams
  import opened BlockStream

  /** The keys the caller asks for, and the digest of the header's fields that the encoding key is compared with. */
  datatype Keys = Keys(ekey: Option<seq<byte>>, ckey: Option<seq<byte>>, headerDigest: (nat, nat, seq<Chunk>) -> seq<byte>)

  /** Undefined: a number of which only some bytes arrived, or the first byte of an empty chunk. */
  datatype Result = Rejected | Undefined | Accepted(output: seq<byte>)

  const MAGIC: nat := 0x424c_5445

  function PeekEntry(data: seq<byte>, cursor: nat): (r: Option<(Chunk, nat)>)
    requires cursor <= |data|
    ensures r.Some? ==> cursor <= r.value.1 <= |data|
  {
    var sizes := cursor + Taken(data, cursor, 4);
    var checksum := sizes + Taken(data, sizes, 4);
    match (PeekBe32(data, cursor), PeekBe32(data, sizes))
    case (Value32(compressed), Value32(decompressed)) =>
      Some((Chunk(compressed, decompressed, PeekDigest(data, checksum)), checksum + Taken(data, checksum, 16)))
    case _ => None
  }

  function PeekTable(data: seq<byte>, cursor: nat, n: nat): (r: Option<seq<Chunk>>)
    requires cursor <= |data|
    ensures r.Some? ==> |r.value| == n
    decreases n
  {
    if n == 0 then Some([])
    else
      match PeekEntry(data, cursor)
      case None => None
      case Some((chunk, next)) =>
        match PeekTable(data, next, n - 1)
        case None => None
        case Some(rest) => Some([chunk] + rest)
  }

  /** How many bytes the chunks take. */
  function Wire(chunks: seq<Chunk>): nat {
    if chunks == [] then 0 else chunks[0].compressedSize + Wire(chunks[1..])
  }

  /** One chunk. */
  function LoadChunk(codec: Codec, data: seq<byte>, offset: nat, chunk: Chunk): Result {
    var cursor := if offset <= |data| then offset else |data|;
    if cursor + chunk.compressedSize > |data| then Rejected
    else
      var wire := data[cursor..cursor + chunk.compressedSize];
      if codec.digest(wire) != chunk.checksum then Rejected
      else if wire == [] then Undefined
      else if wire[0] == MODE_PLAIN then Accepted(wire[1..])
      else if wire[0] == MODE_DEFLATED then
        if Inflate(codec, wire[1..]).ok then Accepted(Inflate(codec, wire[1..]).output) else Rejected
      else Rejected
  }

  /** The chunks in order, each where the one before ends. */
  function LoadChunks(codec: Codec, data: seq<byte>, offset: nat, chunks: seq<Chunk>): Result
    decreases |chunks|
  {
    if chunks == [] then Accepted([])
    else
      match LoadChunk(codec, data, offset, chunks[0])
      case Accepted(content) =>
        (match LoadChunks(codec, data, offset + chunks[0].compressedSize, chunks[1..])
         case Accepted(rest) => Accepted(content + rest)
         case other => other)
      case other => other
  }

  /** The header's fields and the table, or how reading them ends. */
  datatype Head = NoHead(result: Result) | Head(headerSize: nat, flagsChunkCount: nat, chunks: seq<Chunk>)

  function ReadHead(data: seq<byte>): Head {
    var sizeAt := Taken(data, 0, 4);
    var countAt := sizeAt + Taken(data, sizeAt, 4);
    var tableAt := countAt + Taken(data, countAt, 4);
    match PeekBe32(data, 0)
    case Undefined32 => NoHead(Undefined)
    case Value32(magic) =>
      if magic != MAGIC then NoHead(Rejected)
      else
        match (PeekBe32(data, sizeAt), PeekBe32(data, countAt))
        case (Value32(headerSize), Value32(word)) =>
          (match PeekTable(data, tableAt, word % 0x100_0000)
           case None => NoHead(Undefined)
           case Some(chunks) => Head(headerSize, word, chunks))
        case _ => NoHead(Undefined)
  }

  predicate EKeyHolds(keys: Keys, head: Head)
    requires head.Head?
  {
    keys.ekey.Some? ==> keys.headerDigest(head.headerSize, head.flagsChunkCount, head.chunks) == keys.ekey.value
  }

  predicate CKeyHolds(codec: Codec, keys: Keys, output: seq<byte>) {
    keys.ckey.Some? ==> codec.digest(output) == keys.ckey.value
  }

  function Decode(codec: Codec, keys: Keys, data: seq<byte>): Result {
    match ReadHead(data)
    case NoHead(result) => result
    case Head(headerSize, word, chunks) =>
      if !EKeyHolds(keys, ReadHead(data)) then Rejected
      else
        match LoadChunks(codec, data, headerSize, chunks)
        case Accepted(output) => if CKeyHolds(codec, keys, output) then Accepted(output) else Rejected
        case other => other
  }

  // ----- what acceptance means -----

  /** Where chunk `i` is: the header, then what the chunks before it take. */
  function OffsetOf(headerSize: nat, chunks: seq<Chunk>, i: nat): nat
    requires i <= |chunks|
  {
    headerSize + Wire(chunks[..i])
  }

  predicate InBounds(data: seq<byte>, offset: nat, chunk: Chunk) {
    0 < chunk.compressedSize && offset + chunk.compressedSize <= |data|
  }

  function WireOf(data: seq<byte>, offset: nat, chunk: Chunk): (wire: seq<byte>)
    requires InBounds(data, offset, chunk)
    ensures wire != []
  {
    data[offset..offset + chunk.compressedSize]
  }

  /** What a chunk's bytes stand for, in its mode. */
  function Decoded(codec: Codec, wire: seq<byte>): Option<seq<byte>>
    requires wire != []
  {
    if wire[0] == MODE_PLAIN then Some(wire[1..])
    else if wire[0] != MODE_DEFLATED then None
    else if Inflate(codec, wire[1..]).ok then Some(Inflate(codec, wire[1..]).output)
    else None
  }

  /** The chunk is all there, has the digest the table gives, and decodes to the content. */
  predicate Sound(codec: Codec, data: seq<byte>, offset: nat, chunk: Chunk, content: seq<byte>) {
    && InBounds(data, offset, chunk) && codec.digest(WireOf(data, offset, chunk)) == chunk.checksum
    && Decoded(codec, WireOf(data, offset, chunk)) == Some(content)
  }

  lemma ChunkAccepted(codec: Codec, data: seq<byte>, offset: nat, chunk: Chunk, content: seq<byte>)
    ensures LoadChunk(codec, data, offset, chunk) == Accepted(content) <==> Sound(codec, data, offset, chunk, content)
  {
  }

  lemma {:induction false} WireFirst(chunks: seq<Chunk>, i: nat)
    requires 0 < i <= |chunks|
    ensures Wire(chunks[..i]) == chunks[0].compressedSize + Wire(chunks[1..][..i - 1])
  {
    assert chunks[..i][1..] == chunks[1..][..i - 1];
  }

  ghost predicate AllSound(codec: Codec, data: seq<byte>, headerSize: nat, chunks: seq<Chunk>, contents: seq<seq<byte>>)
    requires |contents| == |chunks|
  {
    forall i | 0 <= i < |chunks| :: Sound(codec, data, OffsetOf(headerSize, chunks, i), chunks[i], contents[i])
  }

  lemma AllSoundFirst(codec: Codec, data: seq<byte>, headerSize: nat, chunks: seq<Chunk>, contents: seq<seq<byte>>)
    requires |contents| == |chunks| > 0
    ensures AllSound(codec, data, headerSize, chunks, contents) <==>
      && Sound(codec, data, headerSize, chunks[0], contents[0])
      && AllSound(codec, data, headerSize + chunks[0].compressedSize, chunks[1..], contents[1..])
  {
    assert chunks[..0] == [] && OffsetOf(headerSize, chunks, 0) == headerSize;
    var after := headerSize + chunks[0].compressedSize;
    forall i | 0 < i < |chunks|
      ensures OffsetOf(headerSize, chunks, i) == OffsetOf(after, chunks[1..], i - 1)
    {
      WireFirst(chunks, i);
    }
    if AllSound(codec, data, after, chunks[1..], contents[1..]) && Sound(codec, data, headerSize, chunks[0], contents[0]) {
      forall i | 0 < i < |chunks|
        ensures Sound(codec, data, OffsetOf(headerSize, chunks, i), chunks[i], contents[i])
      {
        assert Sound(codec, data, OffsetOf(after, chunks[1..], i - 1), chunks[1..][i - 1], contents[1..][i - 1]);
      }
    }
    if AllSound(codec, data, headerSize, chunks, contents) {
      forall i | 0 <= i < |chunks| - 1
        ensures Sound(codec, data, OffsetOf(after, chunks[1..], i), chunks[1..][i], contents[1..][i])
      {
        assert Sound(codec, data, OffsetOf(headerSize, chunks, i + 1), chunks[i + 1], contents[i + 1]);
      }
    }
  }

  lemma LoadsFirst(codec: Codec, data: seq<byte>, offset: nat, chunks: seq<Chunk>, content: seq<byte>, rest: seq<byte>)
    requires chunks != [] && LoadChunk(codec, data, offset, chunks[0]) == Accepted(content)
    requires LoadChunks(codec, data, offset + chunks[0].compressedSize, chunks[1..]) == Accepted(rest)
    ensures LoadChunks(codec, data, offset, chunks) == Accepted(content + rest)
  {
  }

  /** Chunks that are all sound are decoded to their contents, in order. */
  lemma {:induction false} SoundIsAccepted(codec: Codec, data: seq<byte>, headerSize: nat, chunks: seq<Chunk>, contents: seq<seq<byte>>)
    requires |contents| == |chunks| && AllSound(codec, data, headerSize, chunks, contents)
    ensures LoadChunks(codec, data, headerSize, chunks) == Accepted(Flat(contents))
    decreases |chunks|
  {
    if chunks != [] {
      var after := headerSize + chunks[0].compressedSize;
      assert Sound(codec, data, headerSize, chunks[0], contents[0]) && AllSound(codec, data, after, chunks[1..], contents[1..]) by {
        AllSoundFirst(codec, data, headerSize, chunks, contents);
      }
      assert LoadChunk(codec, data, headerSize, chunks[0]) == Accepted(contents[0]) by {
        ChunkAccepted(codec, data, headerSize, chunks[0], contents[0]);
      }
      SoundIsAccepted(codec, data, after, chunks[1..], contents[1..]);
      LoadsFirst(codec, data, headerSize, chunks, contents[0], Flat(contents[1..]));
    }
  }

  lemma {:induction false} AcceptedIsSound(codec: Codec, data: seq<byte>, headerSize: nat, chunks: seq<Chunk>)
    returns (contents: seq<seq<byte>>)
    requires LoadChunks(codec, data, headerSize, chunks).Accepted?
    ensures |contents| == |chunks| && AllSound(codec, data, headerSize, chunks, contents)
    ensures LoadChunks(codec, data, headerSize, chunks) == Accepted(Flat(contents))
    decreases |chunks|
  {
    contents := [];
    if chunks != [] {
      var content := LoadChunk(codec, data, headerSize, chunks[0]).output;
      var rest := AcceptedIsSound(codec, data, headerSize + chunks[0].compressedSize, chunks[1..]);
      contents := [content] + rest;
      assert contents[1..] == rest;
      assert Sound(codec, data, headerSize, chunks[0], content) by {
        ChunkAccepted(codec, data, headerSize, chunks[0], content);
      }
      assert AllSound(codec, data, headerSize, chunks, contents) by {
        AllSoundFirst(codec, data, headerSize, chunks, contents);
      }
    }
  }

  /** All chunks are sound, with contents that make up the output. */
  ghost predicate MadeOf(codec: Codec, data: seq<byte>, headerSize: nat, chunks: seq<Chunk>, output: seq<byte>) {
    exists contents: seq<seq<byte>> | |contents| == |chunks| ::
      AllSound(codec, data, headerSize, chunks, contents) && Flat(contents) == output
  }

  lemma ChunksAccepted(codec: Codec, data: seq<byte>, headerSize: nat, chunks: seq<Chunk>, output: seq<byte>)
    ensures LoadChunks(codec, data, headerSize, chunks) == Accepted(output) <==> MadeOf(codec, data, headerSize, chunks, output)
  {
    if LoadChunks(codec, data, headerSize, chunks) == Accepted(output) {
      var contents := AcceptedIsSound(codec, data, headerSize, chunks);
      assert Flat(contents) == output;
    }
    if MadeOf(codec, data, headerSize, chunks, output) {
      var contents: seq<seq<byte>> :| |contents| == |chunks| &&
        AllSound(codec, data, headerSize, chunks, contents) && Flat(contents) == output;
      SoundIsAccepted(codec, data, headerSize, chunks, contents);
    }
  }

  /** An archive is accepted, with an output, exactly if both keys hold and the output is made of sound chunks. */
  lemma AcceptedWhen(codec: Codec, keys: Keys, data: seq<byte>, output: seq<byte>)
    requires ReadHead(data).Head?
    ensures var head := ReadHead(data);
      Decode(codec, keys, data) == Accepted(output) <==>
        (EKeyHolds(keys, head) && CKeyHolds(codec, keys, output) && MadeOf(codec, data, head.headerSize, head.chunks, output))
  {
    var head := ReadHead(data);
    ChunksAccepted(codec, data, head.headerSize, head.chunks, output);
  }

  /** An empty chunk is never handled: it is rejected for its digest, or its first byte, which is not there, is read. */
  lemma EmptyChunk(codec: Codec, data: seq<byte>, offset: nat, chunk: Chunk)
    ensures LoadChunk(codec, data, offset, chunk) == Undefined <==>
      chunk.compressedSize == 0 && codec.digest([]) == chunk.checksum
  {
    if chunk.compressedSize == 0 {
      var cursor := if offset <= |data| then offset else |data|;
      assert data[cursor..cursor + 0] == [];
    }
  }
}
