/** What the bytes of an archive stand for, with every number on the wire written out: the mode bytes, which blocks the two
    decoders hand on, and the errors with which they stop. */
module BlockModes {
  import opened Bytes
  import opened Concatenation
  import opened MemoryStreams
  import opened BlockStream
  import opened Fragmentation
  import opened BlockArchive
  import opened BatchFormat
  import opened BatchRoundTrip
  import opened Failover

  /** 78 stores a payload as it is, 90 stores it deflated, and nothing is inflated to nothing. */
  function Unpacked(codec: Codec, b: Block): Option<seq<byte>> {
    if b.mode == 78 then Some(b.stored)
    else if b.mode == 90 && b.stored == [] then Some([])
    else if b.mode == 90 && codec.inflate(b.stored).ok then Some(codec.inflate(b.stored).output)
    else None
  }

  /** For the incremental decoder, 70 stores an archive. */
  function Streamed(codec: Codec, b: Block): Option<seq<byte>> {
    if b.mode != 70 then Unpacked(codec, b)
    else
      match Run(codec, Covering, START.(data := b.stored))
      case Waiting(nested) => if nested.error.None? then Some(nested.output) else None
      case _ => None
  }

  lemma OpensByMode(codec: Codec, b: Block)
    ensures b.Opened(codec) == Streamed(codec, b)
    ensures Decoded(codec, b.Wire()) == Unpacked(codec, b)
  {
    assert b.Wire()[0] == b.mode && b.Wire()[1..] == b.stored;
  }

  // ----- the incremental decoder -----

  /** The digest in the table is that of the mode byte and the stored bytes but the last. */
  predicate Checked(codec: Codec, b: Block) {
    codec.digest(([b.mode] + b.stored)[..|b.stored|]) == b.checksum
  }

  ghost predicate AllStreamed(codec: Codec, blocks: seq<Block>, contents: seq<seq<byte>>) {
    |contents| == |blocks| && forall i | 0 <= i < |blocks| :: Checked(codec, blocks[i]) && Streamed(codec, blocks[i]) == Some(contents[i])
  }

  lemma {:induction false} StreamedContents(codec: Codec, blocks: seq<Block>, contents: seq<seq<byte>>)
    requires AllStreamed(codec, blocks, contents)
    ensures AllGood(codec, blocks) && Contents(codec, blocks) == Flat(contents)
    decreases |blocks|
  {
    if blocks != [] {
      OpensByMode(codec, blocks[0]);
      assert blocks == [blocks[0]] + blocks[1..];
      StreamedContents(codec, blocks[1..], contents[1..]);
    }
  }

  /** Each block contributes what its mode byte says, in order. */
  lemma StreamByMode(codec: Codec, blocks: seq<Block>, filler: nat, rest: seq<byte>, contents: seq<seq<byte>>)
    requires BlockArchive.Writable(blocks, filler) && blocks != [] && |Body(blocks) + rest| >= filler + 8
    requires AllStreamed(codec, blocks, contents)
    ensures var e := Run(codec, Covering, START.(data := Archive(blocks, 0xF, filler, rest)));
      e.Waiting? && e.state.error.None? && e.state.output == Flat(contents)
  {
    StreamedContents(codec, blocks, contents);
    ArchiveDecodes(codec, blocks, 0xF, filler, rest);
  }

  /** How the first block that cannot be handed on stops the decoder: with which error, and what the output has of it. */
  lemma StreamStopsByMode(codec: Codec, blocks: seq<Block>, filler: nat, rest: seq<byte>, bad: Block, more: seq<Block>,
                          contents: seq<seq<byte>>)
    requires var all := blocks + [bad] + more;
      BlockArchive.Writable(all, filler) && |Body(all) + rest| >= filler + 8
    requires AllStreamed(codec, blocks, contents) && bad.mode != 70 && !(Checked(codec, bad) && Unpacked(codec, bad).Some?)
    ensures var e := Run(codec, Covering, START.(data := Archive(blocks + [bad] + more, 0xF, filler, rest)));
      e.Failed? &&
      if !Checked(codec, bad) then e.state.error == Some(BodyLimit) && e.state.output == Flat(contents)
      else if bad.mode == 90 then e.state.error == Some(BadAlloc) && e.state.output == Flat(contents) + codec.inflate(bad.stored).output
      else e.state.error == Some(UnexpectedBody) && e.state.output == Flat(contents)
  {
    var all := blocks + [bad] + more;
    var bytes := Body(all) + rest;
    StreamedContents(codec, blocks, contents);
    OpensByMode(codec, bad);
    HeldUntil(codec, blocks, bad, more);
    BodyLies(all, rest, bytes);
    PrefixDecodes(codec, all, filler, bytes);
    AllComplete(all, |bytes|);
    assert all[..|blocks|] == blocks && all[|blocks|] == bad && [] + Contents(codec, blocks) == Contents(codec, blocks);
  }

  lemma {:induction false} HeldUntil(codec: Codec, blocks: seq<Block>, bad: Block, more: seq<Block>)
    requires AllGood(codec, blocks) && !bad.Good(codec)
    ensures Held(codec, blocks + [bad] + more) == |blocks|
    decreases |blocks|
  {
    var all := blocks + [bad] + more;
    if blocks == [] {
      assert all[0] == bad;
    } else {
      assert blocks[0] in blocks && all[0] == blocks[0] && all[1..] == blocks[1..] + [bad] + more;
      HeldUntil(codec, blocks[1..], bad, more);
    }
  }

  /** Before the blocks: another signature, other flags or an empty table. */
  lemma HeaderErrors(codec: Codec, data: seq<byte>)
    requires |data| >= 8
    ensures var e := Run(codec, Covering, START.(data := data));
      if data[..4] != [66, 76, 84, 69] then e.Failed? && e.state.error == Some(BodyLimit) && e.state.output == []
      else |data| >= 12 && 4 <= Be32(data, 4) <= |data| - 8 && (data[8] != 15 || data[9..12] == [0, 0, 0]) ==>
        e.Failed? && e.state.error == Some(NeedMore) && e.state.output == []
  {
    var st := START.(data := data);
    assert data[..4] == [66, 76, 84, 69] <==> Le32(data, 0) == SIGNATURE by { SignatureBytes(data); }
    if Le32(data, 0) != SIGNATURE {
      assert Advance(codec, Covering, st) == Fail(st.(cursor := 4, error := Some(BodyLimit)));
    } else if |data| >= 12 && 4 <= Be32(data, 4) <= |data| - 8 && (data[8] != 15 || data[9..12] == [0, 0, 0]) {
      var next := st.(cursor := 8, headerSize := Be32(data, 4), step := CHUNK_HEADERS);
      FlagBytes(data);
      assert Advance(codec, Covering, st) == Next(next);
      FlagsRefused(codec, next);
    }
  }

  lemma FlagsRefused(codec: Codec, st: State)
    requires st.step == CHUNK_HEADERS && st.cursor == 8 && |st.data| >= 12 && 8 + st.headerSize <= |st.data|
    requires Be32(st.data, 8) / 0x100_0000 != 0xF || Be32(st.data, 8) % 0x100_0000 == 0
    ensures Run(codec, Covering, st) == Failed(st.(cursor := 12, error := Some(NeedMore)))
  {
    assert PeekBe32(st.data, 8) == Value32(Be32(st.data, 8)) && Taken(st.data, 8, 4) == 4;
    assert Advance(codec, Covering, st) == ReadChunkHeaders(st);
  }

  lemma SignatureBytes(data: seq<byte>)
    requires |data| >= 4
    ensures data[..4] == [66, 76, 84, 69] <==> Le32(data, 0) == SIGNATURE
  {
    assert data[..4] == [data[0], data[1], data[2], data[3]];
  }

  lemma FlagBytes(data: seq<byte>)
    requires |data| >= 12
    ensures Be32(data, 8) / 0x100_0000 == data[8] as int
    ensures Be32(data, 8) % 0x100_0000 == 0 <==> data[9..12] == [0, 0, 0]
  {
    assert data[9..12] == [data[9], data[10], data[11]];
  }

  // ----- the batch decoder -----

  const NO_KEYS := Keys(None, None, (a, b, c) => [])

  /** The digest in the table is that of all the bytes of the block. */
  predicate Signed(codec: Codec, b: Block) {
    b.checksum == codec.digest([b.mode] + b.stored)
  }

  function Both(first: Option<seq<byte>>, others: Option<seq<byte>>): Option<seq<byte>> {
    if first.Some? && others.Some? then Some(first.value + others.value) else None
  }

  /** What the block makes, if it has its digest. */
  function Verified(codec: Codec, b: Block): Option<seq<byte>> {
    if Signed(codec, b) then Unpacked(codec, b) else None
  }

  /** What all of them make together, in order, or nothing if one of them cannot be unpacked or has another digest. */
  function Together(codec: Codec, blocks: seq<Block>): Option<seq<byte>> {
    if blocks == [] then Some([]) else Both(Verified(codec, blocks[0]), Together(codec, blocks[1..]))
  }

  function Outcome(o: Option<seq<byte>>): Result {
    match o
    case None => Rejected
    case Some(output) => Accepted(output)
  }

  lemma BlockByMode(codec: Codec, b: Block, data: seq<byte>, at: nat)
    requires at + |b.Wire()| <= |data| && data[at..at + |b.Wire()|] == b.Wire()
    ensures LoadChunk(codec, data, at, WireChunk(b)) == Outcome(Verified(codec, b))
  {
    OpensByMode(codec, b);
  }

  /** The blocks stand there, one behind the other. */
  predicate StandAt(data: seq<byte>, at: nat, blocks: seq<Block>)
    decreases |blocks|
  {
    blocks == [] ||
    var next := at + |blocks[0].Wire()|;
    next <= |data| && data[at..next] == blocks[0].Wire() && StandAt(data, next, blocks[1..])
  }

  lemma {:induction false} BodyStands(blocks: seq<Block>, data: seq<byte>, at: nat, rest: seq<byte>)
    requires at <= |data| && data[at..] == Body(blocks) + rest
    ensures StandAt(data, at, blocks)
    decreases |blocks|
  {
    if blocks != [] {
      var others := Body(blocks[1..]);
      assert data[at..] == blocks[0].Wire() + (others + rest) by { Associates(blocks[0].Wire(), others, rest); }
      FirstBlock(blocks[0], data, at, others + rest);
      BodyStands(blocks[1..], data, at + |blocks[0].Wire()|, rest);
    }
  }

  lemma ChunksFirst(codec: Codec, data: seq<byte>, at: nat, chunk: Chunk, more: seq<Chunk>,
                    first: Option<seq<byte>>, others: Option<seq<byte>>)
    requires LoadChunk(codec, data, at, chunk) == Outcome(first)
    requires LoadChunks(codec, data, at + chunk.compressedSize, more) == Outcome(others)
    ensures LoadChunks(codec, data, at, [chunk] + more) == Outcome(Both(first, others))
  {
    assert ([chunk] + more)[1..] == more;
  }

  lemma {:induction false} BlocksByMode(codec: Codec, blocks: seq<Block>, data: seq<byte>, at: nat)
    requires StandAt(data, at, blocks)
    ensures LoadChunks(codec, data, at, WireChunks(blocks)) == Outcome(Together(codec, blocks))
    decreases |blocks|
  {
    if blocks != [] {
      var b, others := blocks[0], blocks[1..];
      BlockByMode(codec, b, data, at);
      BlocksByMode(codec, others, data, at + |b.Wire()|);
      ChunksFirst(codec, data, at, WireChunk(b), WireChunks(others), Verified(codec, b), Together(codec, others));
      assert WireChunks(blocks) == [WireChunk(b)] + WireChunks(others);
    }
  }

  /** The batch decoder accepts exactly the archives of which every block has its digest and a mode of 78 or 90 that
      unpacks; it then has, in order, what each mode byte says. */
  lemma BatchByMode(codec: Codec, blocks: seq<Block>, flags: byte, filler: seq<byte>, rest: seq<byte>)
    requires BlockArchive.Writable(blocks, |filler|)
    ensures Decode(codec, NO_KEYS, Filled(blocks, flags, filler, rest)) == Outcome(Together(codec, blocks))
  {
    var data, at := Filled(blocks, flags, filler, rest), HeaderSize(blocks, |filler|);
    HeadReadsBack(blocks, flags, filler, rest);
    DecodedFrom(codec, data, at, FlagsAndCount(flags, |blocks|), WireChunks(blocks), Together(codec, blocks)) by {
      assert data[at..] == Body(blocks) + rest;
      BodyStands(blocks, data, at, rest);
      BlocksByMode(codec, blocks, data, at);
    }
  }

  lemma DecodedFrom(codec: Codec, data: seq<byte>, at: nat, word: nat, chunks: seq<Chunk>, all: Option<seq<byte>>)
    requires ReadHead(data) == Head(at, word, chunks) && LoadChunks(codec, data, at, chunks) == Outcome(all)
    ensures Decode(codec, NO_KEYS, data) == Outcome(all)
  {
  }

  /** With another signature nothing is accepted. */
  lemma OtherSignature(codec: Codec, keys: Keys, data: seq<byte>)
    requires |data| >= 4 && data[..4] != [66, 76, 84, 69]
    ensures Decode(codec, keys, data) == Rejected
  {
    SignatureBytes(data);
    SignatureIsMagic(data);
  }

  // ----- byte by byte -----

  /** An archive of one block with three bytes: signature, header size, flags, one block, its sizes, its digest, the block. */
  function Small(mode: byte, x: byte, y: byte, z: byte, digest: seq<byte>): seq<byte> {
    [66, 76, 84, 69, 0, 0, 0, 36, 15, 0, 0, 1, 0, 0, 0, 4, 0, 0, 0, 3] + digest + [mode, x, y, z]
  }

  function One(mode: byte, x: byte, y: byte, z: byte, digest: seq<byte>): Block {
    Block(mode, [x, y, z], digest, 3)
  }

  lemma SmallIsArchive(mode: byte, x: byte, y: byte, z: byte, digest: seq<byte>, rest: seq<byte>)
    requires |digest| == 16
    ensures var blocks := [One(mode, x, y, z, digest)];
      && BlockArchive.Writable(blocks, 0) && Body(blocks) == [mode, x, y, z]
      && Archive(blocks, 0xF, 0, rest) == Filled(blocks, 0xF, [], rest) == Small(mode, x, y, z, digest) + rest
  {
    var b := One(mode, x, y, z, digest);
    assert Body([b]) == b.Wire() + [] == [mode, x, y, z];
    var h := Header([b], 0xF, 0);
    assert h == [66, 76, 84, 69, 0, 0, 0, 36, 15, 0, 0, 1, 0, 0, 0, 4, 0, 0, 0, 3] + digest by { SmallHeader(b); }
    SmallParts(h, [mode, x, y, z], rest);
    assert Behind([b], [], rest) == Body([b]) + rest;
  }

  lemma SmallHeader(b: Block)
    requires |b.stored| == b.size == 3 && |b.checksum| == 16
    ensures BlockArchive.Writable([b], 0)
    ensures Header([b], 0xF, 0) == [66, 76, 84, 69, 0, 0, 0, 36, 15, 0, 0, 1, 0, 0, 0, 4, 0, 0, 0, 3] + b.checksum
  {
    assert Bytes32(36) == [0, 0, 0, 36] && Bytes32(FlagsAndCount(0xF, 1)) == [15, 0, 0, 1];
    assert Preamble([b], 0xF, 0) == [66, 76, 84, 69, 0, 0, 0, 36, 15, 0, 0, 1];
    assert Bytes32(4) == [0, 0, 0, 4] && Bytes32(3) == [0, 0, 0, 3];
    assert Table([b]) == b.Entry() + [] == [0, 0, 0, 4, 0, 0, 0, 3] + b.checksum;
  }

  lemma SmallParts(h: seq<byte>, block: seq<byte>, rest: seq<byte>)
    ensures h + (block + rest) == (h + block) + rest
  {
  }

  /** What the two decoders make of it: byte for byte. */
  lemma SmallArchive(codec: Codec, x: byte, y: byte, z: byte, digest: seq<byte>, rest: seq<byte>)
    requires |digest| == 16
    ensures codec.digest([78, x, y, z]) == digest ==>
      Decode(codec, NO_KEYS, Small(78, x, y, z, digest) + rest) == Accepted([x, y, z])
    ensures codec.digest([78, x, y]) == digest && |rest| >= 4 ==>
      var e := Run(codec, Covering, START.(data := Small(78, x, y, z, digest) + rest));
      e.Waiting? && e.state.error.None? && e.state.output == [x, y, z]
  {
    var b := One(78, x, y, z, digest);
    SmallIsArchive(78, x, y, z, digest, rest);
    assert Flat([[x, y, z]]) == [x, y, z];
    assert b.Wire() == [78, x, y, z] && b.Wire()[..3] == [78, x, y];
    assert Together(codec, []) == Some([]) && [x, y, z] + [] == [x, y, z];
    if codec.digest([78, x, y, z]) == digest { BatchByMode(codec, [b], 0xF, [], rest); }
    if codec.digest([78, x, y]) == digest && |rest| >= 4 { StreamByMode(codec, [b], 0, rest, [[x, y, z]]); }
  }

  // ----- requests for archives -----

  /** A session that is asked for such an archive does not fail, exactly if its digests and modes are right. */
  lemma ArchiveIsDecodable(codec: Codec, blocks: seq<Block>, filler: nat, rest: seq<byte>)
    requires BlockArchive.Writable(blocks, filler) && blocks != [] && |Body(blocks) + rest| >= filler + 8
    requires forall b | b in blocks :: b.mode != 70
    ensures Decodable(codec, Archive(blocks, 0xF, filler, rest)) <==>
      forall b | b in blocks :: Checked(codec, b) && Unpacked(codec, b).Some?
  {
    var data := Archive(blocks, 0xF, filler, rest);
    PrefixMayBeCut(blocks, 0xF, filler, rest, data);
    ArchiveDecodes(codec, blocks, 0xF, filler, rest);
    forall b | b in blocks
      ensures b.Good(codec) <==> Checked(codec, b) && Unpacked(codec, b).Some?
    {
      OpensByMode(codec, b);
    }
  }
}
