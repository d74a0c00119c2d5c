/** Archives for the batch decoder as they are meant to be written, that decoding gives the contents back, and when the
    incremental decoder decodes the same archives. */
module BatchRoundTrip {
  import opened BatchFormat
  import opened BlockArchive
  import opened BlockStream
  import opened Bytes
  import opened Concatenation
  import opened Fragmentation
  import opened MemoryStreams

  /** The table says of a block what it should: the size of its content, and the digest of all its bytes. */
  predicate Genuine(codec: Codec, b: Block) {
    && b.Fits() && Decoded(codec, b.Wire()).Some?
    && b.size == |Decoded(codec, b.Wire()).value| && b.checksum == codec.digest(b.Wire())
  }

  predicate AllGenuine(codec: Codec, blocks: seq<Block>) {
    forall b | b in blocks :: Genuine(codec, b)
  }

  /** Both decoders make the same of its mode. */
  lemma GenuineIsOpened(codec: Codec, b: Block)
    requires Genuine(codec, b)
    ensures b.Opened(codec) == Decoded(codec, b.Wire()) && b.mode != MODE_NESTED
  {
    assert b.Wire()[1..] == b.stored;
  }

  /** How the batch decoder keeps the entry of the table. */
  function WireChunk(b: Block): Chunk {
    Chunk(|b.stored| + 1, b.size, b.checksum)
  }

  function WireChunks(blocks: seq<Block>): (c: seq<Chunk>)
    ensures |c| == |blocks|
  {
    if blocks == [] then [] else [WireChunk(blocks[0])] + WireChunks(blocks[1..])
  }

  /** What follows the table: something that fills the header, the blocks, and whatever comes behind them. */
  function Behind(blocks: seq<Block>, filler: seq<byte>, rest: seq<byte>): (d: seq<byte>)
    ensures |d| == |filler| + |Body(blocks)| + |rest|
  {
    filler + (Body(blocks) + rest)
  }

  function Filled(blocks: seq<Block>, flags: byte, filler: seq<byte>, rest: seq<byte>): seq<byte>
    requires Writable(blocks, |filler|)
  {
    Header(blocks, flags, |filler|) + Behind(blocks, filler, rest)
  }

  // ----- reading back -----

  lemma EntryReadsBack(b: Block, data: seq<byte>, at: nat)
    requires b.Fits() && at + 24 <= |data| && data[at..at + 24] == b.Entry()
    ensures PeekEntry(data, at) == Some((WireChunk(b), at + 24))
  {
    EntryParts(b, data, at);
    assert data[at + 8..at + 24] + Zeros(0) == b.checksum;
  }

  lemma {:induction false} TableReadsBack(blocks: seq<Block>, data: seq<byte>, at: nat)
    requires at <= |data| && HoldsTable(blocks, data, at)
    ensures PeekTable(data, at, |blocks|) == Some(WireChunks(blocks))
    decreases |blocks|
  {
    if blocks != [] {
      EntryReadsBack(blocks[0], data, at);
      TableReadsBack(blocks[1..], data, at + 24);
    }
  }

  lemma BlockReadsBack(codec: Codec, b: Block, data: seq<byte>, at: nat)
    requires Genuine(codec, b) && at + |b.Wire()| <= |data| && data[at..at + |b.Wire()|] == b.Wire()
    ensures LoadChunk(codec, data, at, WireChunk(b)) == Accepted(b.Content(codec))
  {
    GenuineIsOpened(codec, b);
    ChunkAccepted(codec, data, at, WireChunk(b), b.Content(codec));
  }

  lemma {:induction false} BlocksReadBack(codec: Codec, blocks: seq<Block>, data: seq<byte>, at: nat, rest: seq<byte>)
    requires AllGenuine(codec, blocks) && at <= |data| && data[at..] == Body(blocks) + rest
    ensures LoadChunks(codec, data, at, WireChunks(blocks)) == Accepted(Contents(codec, blocks))
    decreases |blocks|
  {
    if blocks != [] {
      var b, more := blocks[0], Body(blocks[1..]) + rest;
      FirstBlock(b, data, at, more) by {
        assert Body(blocks) + rest == b.Wire() + more;
      }
      BlockReadsBack(codec, b, data, at);
      BlocksReadBack(codec, blocks[1..], data, at + |b.Wire()|, rest);
      LoadsFirst(codec, data, at, WireChunks(blocks), b.Content(codec), Contents(codec, blocks[1..]));
    }
  }

  lemma FirstBlock(b: Block, data: seq<byte>, at: nat, more: seq<byte>)
    requires at <= |data| && data[at..] == b.Wire() + more
    ensures at + |b.Wire()| <= |data| && data[at..at + |b.Wire()|] == b.Wire() && data[at + |b.Wire()|..] == more
  {
    assert data[at..|data|] == data[at..];
    SplitAt(data, at, |data|, b.Wire(), more);
  }

  lemma HeadOf(data: seq<byte>, size: nat, word: nat, chunks: seq<Chunk>)
    requires |data| >= 12 && Le32(data, 0) == SIGNATURE && Be32(data, 4) == size && Be32(data, 8) == word
    requires PeekTable(data, 12, word % 0x100_0000) == Some(chunks)
    ensures ReadHead(data) == Head(size, word, chunks)
  {
    SignatureIsMagic(data);
  }

  /** The two decoders read the signature in either byte order. */
  lemma SignatureIsMagic(data: seq<byte>)
    requires |data| >= 4
    ensures Le32(data, 0) == SIGNATURE <==> Be32(data, 0) == MAGIC
  {
  }

  lemma HeadReadsBack(blocks: seq<Block>, flags: byte, filler: seq<byte>, rest: seq<byte>)
    requires Writable(blocks, |filler|)
    ensures ReadHead(Filled(blocks, flags, filler, rest)) ==
      Head(HeaderSize(blocks, |filler|), FlagsAndCount(flags, |blocks|), WireChunks(blocks))
  {
    var h, data := Header(blocks, flags, |filler|), Filled(blocks, flags, filler, rest);
    ArchiveBegins(blocks, flags, |filler|, Behind(blocks, filler, rest), data);
    assert data[12..|h|] == h[12..] == Table(blocks);
    TableHolds(blocks, data, 12, |h|);
    TableReadsBack(blocks, data, 12);
    HeadOf(data, HeaderSize(blocks, |filler|), FlagsAndCount(flags, |blocks|), WireChunks(blocks));
  }

  /** What the keys are meant to be. */
  predicate KeysFor(codec: Codec, keys: Keys, blocks: seq<Block>, flags: byte, filler: seq<byte>)
    requires Writable(blocks, |filler|)
  {
    var digest := keys.headerDigest(HeaderSize(blocks, |filler|), FlagsAndCount(flags, |blocks|), WireChunks(blocks));
    && (keys.ekey.Some? ==> keys.ekey.value == digest)
    && (keys.ckey.Some? ==> keys.ckey.value == codec.digest(Contents(codec, blocks)))
  }

  /** Decoding an archive, whatever follows it and whatever fills its header, gives the contents of its blocks in order
      exactly if the keys that are asked for are its keys; with another key it is rejected. */
  lemma ArchiveReadsBack(codec: Codec, keys: Keys, blocks: seq<Block>, flags: byte, filler: seq<byte>, rest: seq<byte>)
    requires Writable(blocks, |filler|) && AllGenuine(codec, blocks)
    ensures Decode(codec, keys, Filled(blocks, flags, filler, rest)) ==
      if KeysFor(codec, keys, blocks, flags, filler) then Accepted(Contents(codec, blocks)) else Rejected
  {
    var data := Filled(blocks, flags, filler, rest);
    HeadReadsBack(blocks, flags, filler, rest);
    assert data[HeaderSize(blocks, |filler|)..] == Body(blocks) + rest;
    BlocksReadBack(codec, blocks, data, HeaderSize(blocks, |filler|), rest);
  }

  /** A block for some stored bytes, with what the table should say of it. */
  function BlockFor(codec: Codec, mode: byte, stored: seq<byte>, content: seq<byte>): Block {
    Block(mode, stored, codec.digest([mode] + stored), |content|)
  }

  /** Payloads stored as they are come back as they were. */
  function Plain(codec: Codec, payloads: seq<seq<byte>>): seq<Block> {
    seq(|payloads|, i requires 0 <= i < |payloads| => BlockFor(codec, MODE_PLAIN, payloads[i], payloads[i]))
  }

  lemma {:induction false} PlainContents(codec: Codec, payloads: seq<seq<byte>>)
    requires forall p | p in payloads :: |p| + 1 < TWO_TO_32 && |codec.digest([MODE_PLAIN] + p)| == 16
    ensures AllGenuine(codec, Plain(codec, payloads)) && Contents(codec, Plain(codec, payloads)) == Flat(payloads)
  {
    var blocks := Plain(codec, payloads);
    if payloads != [] {
      assert blocks[1..] == Plain(codec, payloads[1..]);
      assert blocks[0].Wire()[1..] == payloads[0];
      PlainContents(codec, payloads[1..]);
      assert blocks == [blocks[0]] + blocks[1..];
    }
  }

  /** So do payloads that were deflated, when inflating undoes it. */
  function Deflated(codec: Codec, deflate: seq<byte> -> seq<byte>, payloads: seq<seq<byte>>): seq<Block> {
    seq(|payloads|, i requires 0 <= i < |payloads| => BlockFor(codec, MODE_DEFLATED, deflate(payloads[i]), payloads[i]))
  }

  predicate Deflatable(codec: Codec, deflate: seq<byte> -> seq<byte>, p: seq<byte>) {
    && Inflate(codec, deflate(p)) == Inflated(p, true) && |p| < TWO_TO_32 && |deflate(p)| + 1 < TWO_TO_32
    && |codec.digest([MODE_DEFLATED] + deflate(p))| == 16
  }

  lemma {:induction false} DeflatedContents(codec: Codec, deflate: seq<byte> -> seq<byte>, payloads: seq<seq<byte>>)
    requires forall p | p in payloads :: Deflatable(codec, deflate, p)
    ensures AllGenuine(codec, Deflated(codec, deflate, payloads))
    ensures Contents(codec, Deflated(codec, deflate, payloads)) == Flat(payloads)
  {
    var blocks := Deflated(codec, deflate, payloads);
    if payloads != [] {
      assert blocks[1..] == Deflated(codec, deflate, payloads[1..]);
      assert blocks[0].Wire()[1..] == deflate(payloads[0]) && Deflatable(codec, deflate, payloads[0]);
      DeflatedContents(codec, deflate, payloads[1..]);
      assert blocks == [blocks[0]] + blocks[1..];
    }
  }

  // ----- the other decoder -----

  /** A block of the table, but with the bytes that are there. */
  function Frame(b: Block, bytes: seq<byte>): (f: Block)
    requires |bytes| >= |b.stored| + 1
    ensures f.Wire() == bytes[..|b.stored| + 1] && (b.Fits() ==> f.Fits() && f.Entry() == b.Entry())
  {
    b.(mode := bytes[0], stored := bytes[1..|b.stored| + 1])
  }

  /** The incremental decoder starts with the blocks where the table ends.  What it takes for blocks when these bytes
      follow the table: the sizes and digests are those of the table. */
  function Frames(blocks: seq<Block>, bytes: seq<byte>): (frames: seq<Block>)
    requires |bytes| >= |Body(blocks)|
    ensures |frames| == |blocks|
  {
    if blocks == [] then [] else [Frame(blocks[0], bytes)] + Frames(blocks[1..], bytes[|blocks[0].stored| + 1..])
  }

  lemma Reassemble<T>(bytes: seq<T>, n: nat, more: seq<T>, end: nat)
    requires n <= end <= |bytes| && more + bytes[n..][end - n..] == bytes[n..]
    ensures (bytes[..n] + more) + bytes[end..] == bytes
  {
    assert bytes[n..][end - n..] == bytes[end..];
    Associates(bytes[..n], more, bytes[end..]);
  }

  lemma {:induction false} FramesLie(blocks: seq<Block>, bytes: seq<byte>)
    requires |bytes| >= |Body(blocks)|
    ensures var frames := Frames(blocks, bytes);
      |Body(frames)| == |Body(blocks)| && Body(frames) + bytes[|Body(blocks)|..] == bytes
    decreases |blocks|
  {
    if blocks != [] {
      var n := |blocks[0].stored| + 1;
      var more := Frames(blocks[1..], bytes[n..]);
      FramesLie(blocks[1..], bytes[n..]);
      assert Body(Frames(blocks, bytes)) == bytes[..n] + Body(more);
      Reassemble(bytes, n, Body(more), |Body(blocks)|);
    }
  }

  lemma {:induction false} FramesFit(blocks: seq<Block>, bytes: seq<byte>)
    requires |bytes| >= |Body(blocks)| && forall b | b in blocks :: b.Fits()
    ensures var frames := Frames(blocks, bytes);
      (forall b | b in frames :: b.Fits()) && Table(frames) == Table(blocks)
    decreases |blocks|
  {
    if blocks != [] {
      var first, more := Frame(blocks[0], bytes), Frames(blocks[1..], bytes[|blocks[0].stored| + 1..]);
      FramesFit(blocks[1..], bytes[|blocks[0].stored| + 1..]);
      assert Frames(blocks, bytes) == [first] + more;
      TableOf(first, more);
    }
  }

  lemma TableOf(first: Block, more: seq<Block>)
    requires first.Fits() && forall b | b in more :: b.Fits()
    ensures forall b | b in [first] + more :: b.Fits()
    ensures Table([first] + more) == first.Entry() + Table(more)
  {
    assert ([first] + more)[1..] == more;
  }

  lemma FrameOfWire(b: Block, more: seq<byte>)
    ensures Frame(b, b.Wire() + more) == b && (b.Wire() + more)[|b.stored| + 1..] == more
  {
    var bytes := b.Wire() + more;
    assert bytes[1..|b.stored| + 1] == b.stored;
  }

  /** Without filler they are the blocks. */
  lemma {:induction false} FramesAreBlocks(blocks: seq<Block>, rest: seq<byte>)
    ensures Frames(blocks, Body(blocks) + rest) == blocks
  {
    if blocks != [] {
      var more := Body(blocks[1..]) + rest;
      FramesAreBlocks(blocks[1..], rest);
      Associates(blocks[0].Wire(), Body(blocks[1..]), rest);
      FrameOfWire(blocks[0], more);
      assert Frames(blocks, blocks[0].Wire() + more) == [blocks[0]] + blocks[1..];
    }
  }

  /** An archive is, for the incremental decoder, the archive of its frames. */
  lemma FilledIsArchive(blocks: seq<Block>, flags: byte, filler: seq<byte>, rest: seq<byte>)
    requires Writable(blocks, |filler|)
    ensures var d := Behind(blocks, filler, rest);
      var frames := Frames(blocks, d);
      && Writable(frames, |filler|) && |Body(frames) + d[|Body(blocks)|..]| == |d|
      && Filled(blocks, flags, filler, rest) == Archive(frames, flags, |filler|, d[|Body(blocks)|..])
  {
    var d := Behind(blocks, filler, rest);
    var frames := Frames(blocks, d);
    FramesFit(blocks, d);
    SameHeader(blocks, frames, flags, |filler|);
    assert Body(frames) + d[|Body(blocks)|..] == d by { FramesLie(blocks, d); }
  }

  lemma SameHeader(blocks: seq<Block>, frames: seq<Block>, flags: byte, filler: nat)
    requires Writable(blocks, filler) && Writable(frames, filler) && |frames| == |blocks| && Table(frames) == Table(blocks)
    ensures Header(frames, flags, filler) == Header(blocks, flags, filler)
  {
    assert HeaderSize(frames, filler) == HeaderSize(blocks, filler);
    assert Preamble(frames, flags, filler) == Preamble(blocks, flags, filler);
  }

  function Incrementally(codec: Codec, data: seq<byte>): Ending {
    Run(codec, Covering, START.(data := data))
  }

  /** The incremental decoder decodes an archive that the batch decoder accepts exactly under these conditions.  If the
      blocks and what follows them take fewer than eight bytes, it does not even begin.  Otherwise the flags and the number
      of blocks have to be acceptable, and the bytes that follow the table, filler included, have to be good blocks with
      the same contents. */
  lemma IncrementalDecodesFilled(codec: Codec, blocks: seq<Block>, flags: byte, filler: seq<byte>, rest: seq<byte>)
    requires Writable(blocks, |filler|) && AllGenuine(codec, blocks)
    ensures var e := Incrementally(codec, Filled(blocks, flags, filler, rest));
      var frames := Frames(blocks, Behind(blocks, filler, rest));
      CleanEnd(e) && e.state.output == Contents(codec, blocks) <==>
        if |Body(blocks)| + |rest| < 8 then Contents(codec, blocks) == []
        else flags == 0xF && blocks != [] && AllGood(codec, frames) && Contents(codec, frames) == Contents(codec, blocks)
  {
    var d := Behind(blocks, filler, rest);
    FilledIsArchive(blocks, flags, filler, rest);
    ArchiveDecodes(codec, Frames(blocks, d), flags, |filler|, d[|Body(blocks)|..]);
  }

  /** Leaving out its last byte does not change the digest of a block. */
  predicate SameDigest(codec: Codec, b: Block) {
    codec.digest(b.Wire()) == codec.digest(b.Wire()[..|b.stored|])
  }

  lemma GoodIsSameDigest(codec: Codec, b: Block)
    requires Genuine(codec, b)
    ensures b.Passes(codec) == b.Good(codec) == SameDigest(codec, b)
  {
    GenuineIsOpened(codec, b);
  }

  /** For an archive without filler: the flags are the expected ones, there are blocks, and for each of them leaving out
      its last byte does not change the digest. */
  lemma IncrementalDecodesWhen(codec: Codec, blocks: seq<Block>, flags: byte, rest: seq<byte>)
    requires Writable(blocks, 0) && AllGenuine(codec, blocks)
    ensures var e := Incrementally(codec, Filled(blocks, flags, [], rest));
      CleanEnd(e) && e.state.output == Contents(codec, blocks) <==>
        if |Body(blocks)| + |rest| < 8 then Contents(codec, blocks) == []
        else flags == 0xF && blocks != [] && forall b | b in blocks :: SameDigest(codec, b)
  {
    IncrementalDecodesFilled(codec, blocks, flags, [], rest);
    assert Behind(blocks, [], rest) == Body(blocks) + rest;
    FramesAreBlocks(blocks, rest);
    forall b | b in blocks
      ensures b.Good(codec) == SameDigest(codec, b)
    {
      GoodIsSameDigest(codec, b);
    }
  }

  /** How many of the first blocks keep their digest without their last byte. */
  function SameDigests(codec: Codec, blocks: seq<Block>): (k: nat)
    ensures k <= |blocks| && (k < |blocks| ==> !SameDigest(codec, blocks[k]))
    ensures forall i | 0 <= i < k :: SameDigest(codec, blocks[i])
  {
    if blocks == [] || !SameDigest(codec, blocks[0]) then 0 else 1 + SameDigests(codec, blocks[1..])
  }

  lemma {:induction false} HeldIsSameDigests(codec: Codec, blocks: seq<Block>)
    requires AllGenuine(codec, blocks)
    ensures Held(codec, blocks) == SameDigests(codec, blocks)
  {
    if blocks != [] {
      GoodIsSameDigest(codec, blocks[0]);
      HeldIsSameDigests(codec, blocks[1..]);
    }
  }

  /** The first block whose digest is another gives the decoder up, behind the contents of the blocks before it: the batch
      decoder accepts the whole archive. */
  lemma IncrementalDecoderGivesUp(codec: Codec, blocks: seq<Block>, rest: seq<byte>)
    requires Writable(blocks, 0) && AllGenuine(codec, blocks) && |Body(blocks)| + |rest| >= 8
    requires SameDigests(codec, blocks) < |blocks|
    ensures var data, k := Filled(blocks, 0xF, [], rest), SameDigests(codec, blocks);
      var e := Incrementally(codec, data);
      && Decode(codec, Keys(None, None, (a, b, c) => []), data) == Accepted(Contents(codec, blocks))
      && e.Failed? && e.state.error == Some(BodyLimit) && e.state.output == Contents(codec, blocks[..k])
  {
    var k := SameDigests(codec, blocks);
    ArchiveReadsBack(codec, Keys(None, None, (a, b, c) => []), blocks, 0xF, [], rest);
    HeldIsSameDigests(codec, blocks);
    GoodIsSameDigest(codec, blocks[k]);
    assert Behind(blocks, [], rest) == Body(blocks) + rest;
    ArchiveStops(codec, blocks, 0, rest);
  }
}
