/** Archives with any table and any blocks, and what the decoder makes of them and of their prefixes. */
module BlockArchive {
  import opened Bytes
  import opened MemoryStreams
  import opened BlockStream
  import opened Fragmentation

  /** A block, the bytes after its mode byte, and what the table says of it. */
  datatype Block = Block(mode: byte, stored: seq<byte>, checksum: seq<byte>, size: nat) {
    /** The block on the wire. */
    function Wire(): (w: seq<byte>)
      ensures w != []
    {
      [mode] + stored
    }

    predicate Fits() {
      |stored| + 1 < TWO_TO_32 && |checksum| == 16 && size < TWO_TO_32
    }

    /** How the incremental decoder keeps the entry of the table. */
    function ChunkOf(): Chunk {
      Chunk(|stored|, size, checksum)
    }

    /** The digest that the decoder compares is over the wire bytes but the last. */
    predicate Passes(codec: Codec) {
      codec.digest(Wire()[..|stored|]) == checksum
    }

    /** What the mode makes of the stored bytes, if it is a mode and nothing goes wrong. */
    function Opened(codec: Codec): Option<seq<byte>> {
      if mode == MODE_PLAIN then Some(stored)
      else if mode == MODE_DEFLATED then
        if Inflate(codec, stored).ok then Some(Inflate(codec, stored).output) else None
      else if mode == MODE_NESTED then
        var nested := Run(codec, Covering, START.(data := stored));
        if CleanEnd(nested) then Some(nested.state.output) else None
      else None
    }

    predicate Good(codec: Codec) {
      Passes(codec) && Opened(codec).Some?
    }

    function Content(codec: Codec): seq<byte> {
      if Opened(codec).Some? then Opened(codec).value else []
    }

    function Entry(): (e: seq<byte>)
      requires Fits()
      ensures |e| == 24
    {
      Bytes32(|stored| + 1) + Bytes32(size) + checksum
    }
  }

  /** The decoder waits and has reported nothing. */
  predicate CleanEnd(e: Ending) {
    e.Waiting? && e.state.error.None?
  }

  function Body(blocks: seq<Block>): seq<byte> {
    if blocks == [] then [] else blocks[0].Wire() + Body(blocks[1..])
  }

  function Contents(codec: Codec, blocks: seq<Block>): seq<byte> {
    if blocks == [] then [] else blocks[0].Content(codec) + Contents(codec, blocks[1..])
  }

  function Chunks(blocks: seq<Block>): (c: seq<Chunk>)
    ensures |c| == |blocks|
  {
    if blocks == [] then [] else [blocks[0].ChunkOf()] + Chunks(blocks[1..])
  }

  /** The header announces room for the table and `filler` bytes more. */
  predicate Writable(blocks: seq<Block>, filler: nat) {
    |blocks| < 0x100_0000 && HeaderSize(blocks, filler) < TWO_TO_32 && forall b | b in blocks :: b.Fits()
  }

  function HeaderSize(blocks: seq<Block>, filler: nat): nat {
    12 + 24 * |blocks| + filler
  }

  function Table(blocks: seq<Block>): (t: seq<byte>)
    requires forall b | b in blocks :: b.Fits()
    ensures |t| == 24 * |blocks|
  {
    if blocks == [] then [] else blocks[0].Entry() + Table(blocks[1..])
  }

  const MAGIC_BYTES: seq<byte> := [0x42, 0x4c, 0x54, 0x45]

  function FlagsAndCount(flags: byte, n: nat): (word: nat)
    requires n < 0x100_0000
    ensures word < TWO_TO_32 && word / 0x100_0000 == flags && word % 0x100_0000 == n
  {
    flags as int * 0x100_0000 + n
  }

  /** The signature, the size of the whole header, the flags and the number of blocks. */
  function Preamble(blocks: seq<Block>, flags: byte, filler: nat): (p: seq<byte>)
    requires Writable(blocks, filler)
    ensures |p| == 12
  {
    MAGIC_BYTES + Bytes32(HeaderSize(blocks, filler)) + Bytes32(FlagsAndCount(flags, |blocks|))
  }

  function Header(blocks: seq<Block>, flags: byte, filler: nat): (h: seq<byte>)
    requires Writable(blocks, filler)
    ensures |h| == 12 + 24 * |blocks|
  {
    Preamble(blocks, flags, filler) + Table(blocks)
  }

  function Archive(blocks: seq<Block>, flags: byte, filler: nat, rest: seq<byte>): seq<byte>
    requires Writable(blocks, filler)
  {
    Header(blocks, flags, filler) + (Body(blocks) + rest)
  }

  // ----- the table -----

  /** The entries of the table stand at the cursor, one after the other. */
  ghost predicate HoldsTable(blocks: seq<Block>, data: seq<byte>, cursor: nat) {
    blocks == [] || (
      && cursor + 24 <= |data| && blocks[0].Fits() && data[cursor..cursor + 24] == blocks[0].Entry()
      && HoldsTable(blocks[1..], data, cursor + 24)
    )
  }

  lemma {:induction false} TableHolds(blocks: seq<Block>, data: seq<byte>, cursor: nat, end: nat)
    requires forall b | b in blocks :: b.Fits()
    requires cursor <= end <= |data| && data[cursor..end] == Table(blocks)
    ensures HoldsTable(blocks, data, cursor)
    decreases |blocks|
  {
    if blocks != [] {
      SplitAt(data, cursor, end, blocks[0].Entry(), Table(blocks[1..]));
      TableHolds(blocks[1..], data, cursor + 24, end);
    }
  }

  lemma {:induction false} EntriesRead(blocks: seq<Block>, data: seq<byte>, cursor: nat)
    requires HoldsTable(blocks, data, cursor) && cursor + 24 * |blocks| <= |data|
    ensures Entries(data, cursor, |blocks|) == Chunks(blocks)
    decreases |blocks|
  {
    if blocks != [] {
      EntriesRead(blocks[1..], data, cursor + 24);
      EntryParts(blocks[0], data, cursor);
    }
  }

  /** The fields of an entry. */
  lemma EntryParts(b: Block, data: seq<byte>, cursor: nat)
    requires b.Fits() && cursor + 24 <= |data| && data[cursor..cursor + 24] == b.Entry()
    ensures Be32(data, cursor) == |b.stored| + 1 && Be32(data, cursor + 4) == b.size
    ensures data[cursor + 8..cursor + 24] == b.checksum
    ensures EntryAt(data, cursor) == b.ChunkOf()
  {
    var size := Bytes32(b.size) + b.checksum;
    assert b.Entry() == Bytes32(|b.stored| + 1) + size;
    SplitAt(data, cursor, cursor + 24, Bytes32(|b.stored| + 1), size);
    SplitAt(data, cursor + 4, cursor + 24, Bytes32(b.size), b.checksum);
    Be32At(data, cursor, |b.stored| + 1);
    Be32At(data, cursor + 4, b.size);
  }

  // ----- the blocks -----

  /** How many blocks are complete in the first `m` bytes of the body. */
  function Complete(blocks: seq<Block>, m: nat): (k: nat)
    ensures k <= |blocks|
  {
    if blocks == [] || m < |blocks[0].stored| + 1 then 0 else 1 + Complete(blocks[1..], m - (|blocks[0].stored| + 1))
  }

  /** How many of the first blocks are good. */
  function Held(codec: Codec, blocks: seq<Block>): (f: nat)
    ensures f <= |blocks| && (f < |blocks| ==> !blocks[f].Good(codec))
    ensures forall i | 0 <= i < f :: blocks[i].Good(codec)
  {
    if blocks == [] || !blocks[0].Good(codec) then 0 else 1 + Held(codec, blocks[1..])
  }

  /** The bytes are those of the blocks, as far as they go; behind the last block there may be others. */
  predicate Lie(bytes: seq<byte>, blocks: seq<Block>)
    decreases |blocks|
  {
    blocks == [] ||
    var wire := blocks[0].Wire();
    if |bytes| < |wire| then bytes == wire[..|bytes|]
    else bytes[..|wire|] == wire && Lie(bytes[|wire|..], blocks[1..])
  }

  lemma TakeDrop<T>(front: seq<T>, rest: seq<T>, taken: seq<T>)
    requires taken <= front + rest
    ensures |taken| < |front| ==> taken == front[..|taken|]
    ensures |taken| >= |front| ==> taken[..|front|] == front && taken[|front|..] <= rest
  {
    assert taken == (front + rest)[..|taken|];
    if |taken| >= |front| { assert taken[|front|..] == rest[..|taken| - |front|]; }
  }

  lemma {:induction false} BodyLies(blocks: seq<Block>, rest: seq<byte>, bytes: seq<byte>)
    requires bytes <= Body(blocks) + rest
    ensures Lie(bytes, blocks)
    decreases |blocks|
  {
    if blocks != [] {
      var wire, more := blocks[0].Wire(), Body(blocks[1..]) + rest;
      assert Body(blocks) + rest == wire + more;
      TakeDrop(wire, more, bytes);
      if |bytes| >= |wire| { BodyLies(blocks[1..], rest, bytes[|wire|..]); }
    }
  }

  /** The decoder stands before these blocks, or before what there is of them. */
  ghost predicate Before(st: State, blocks: seq<Block>) {
    && st.cursor <= |st.data| && st.step >= DATA_BLOCKS && st.step - DATA_BLOCKS <= |st.chunks| && st.error.None?
    && st.chunks[st.step - DATA_BLOCKS..] == Chunks(blocks) && Lie(st.data[st.cursor..], blocks)
  }

  function Past(codec: Codec, st: State, b: Block): State {
    st.(cursor := st.cursor + |b.stored| + 1, step := st.step + 1, output := st.output + b.Content(codec))
  }

  lemma DropDrop<T>(s: seq<T>, at: nat, n: nat)
    requires at + n <= |s|
    ensures s[at..][n..] == s[at + n..]
  {
  }

  lemma {:induction false} PastBefore(codec: Codec, st: State, blocks: seq<Block>)
    requires Before(st, blocks) && blocks != [] && st.cursor + |blocks[0].stored| + 1 <= |st.data|
    ensures Before(Past(codec, st, blocks[0]), blocks[1..])
  {
    var n := |blocks[0].stored| + 1;
    var next := Past(codec, st, blocks[0]);
    DropDrop(st.data, st.cursor, n);
    DropDrop(st.chunks, st.step - DATA_BLOCKS, 1);
    assert Chunks(blocks)[1..] == Chunks(blocks[1..]);
  }

  lemma NextChunk(st: State, blocks: seq<Block>)
    requires Before(st, blocks) && blocks != []
    ensures BlockAwaited(st) && st.chunks[st.step - DATA_BLOCKS] == blocks[0].ChunkOf()
    ensures st.cursor < |st.data| ==> st.data[st.cursor] == blocks[0].mode
  {
    assert st.chunks[st.step - DATA_BLOCKS] == st.chunks[st.step - DATA_BLOCKS..][0];
    if st.cursor < |st.data| { assert st.data[st.cursor] == st.data[st.cursor..][0]; }
  }

  lemma FrontOf<T>(data: seq<T>, at: nat, front: seq<T>)
    requires at + |front| <= |data| && data[at..][..|front|] == front
    ensures data[at..at + |front|] == front
  {
    SliceOfSlice(data, at, |data|, 0, |front|);
    assert data[at..|data|] == data[at..] && data[at..][0..|front|] == data[at..][..|front|];
  }

  lemma BlockBytes(st: State, b: Block, rest: seq<Block>)
    requires st.cursor + |b.stored| + 1 <= |st.data| && Lie(st.data[st.cursor..], [b] + rest)
    ensures st.data[st.cursor..st.cursor + |b.stored|] == b.Wire()[..|b.stored|]
    ensures st.data[st.cursor] == b.mode
    ensures st.data[st.cursor + 1..st.cursor + 1 + |b.stored|] == b.stored
  {
    var n, at := |b.stored|, st.cursor;
    FrontOf(st.data, at, b.Wire());
    SplitAt(st.data, at, at + n + 1, [b.mode], b.stored);
    assert st.data[at] == st.data[at..at + 1][0];
    SliceOfSlice(st.data, at, at + n + 1, 0, n);
    assert b.Wire()[0..n] == b.Wire()[..n];
  }

  /** A complete block that is good is decoded. */
  lemma {:induction false} GoodBlock(codec: Codec, st: State, blocks: seq<Block>)
    requires Before(st, blocks) && blocks != [] && st.cursor + |blocks[0].stored| + 1 <= |st.data|
    requires blocks[0].Good(codec)
    ensures Advance(codec, Covering, st) == Next(Past(codec, st, blocks[0]))
  {
    var b := blocks[0];
    NextChunk(st, blocks);
    assert blocks == [b] + blocks[1..];
    BlockBytes(st, b, blocks[1..]);
    WholeBlock(codec, st, |b.stored|);
    OpenedBlock(codec, st, b);
  }

  lemma {:induction false} OpenedBlock(codec: Codec, st: State, b: Block)
    requires st.cursor + |b.stored| < |st.data| && st.step >= DATA_BLOCKS && b.Opened(codec).Some? && st.error.None?
    requires st.data[st.cursor + 1..st.cursor + 1 + |b.stored|] == b.stored
    ensures Unpack(codec, Covering, st.(cursor := st.cursor + 1), b.mode, |b.stored|) == Next(Past(codec, st, b))
  {
  }

  /** Where a block stops the decoder that is not good, and not a nested stream. */
  function Stopped(codec: Codec, st: State, b: Block): State {
    if !b.Passes(codec) then st.(error := Some(BodyLimit))
    else if b.mode == MODE_DEFLATED then
      st.(cursor := st.cursor + 1, output := st.output + Inflate(codec, b.stored).output, error := Some(BadAlloc))
    else st.(cursor := st.cursor + 1, error := Some(UnexpectedBody))
  }

  /** One that is not good is not. */
  lemma {:induction false} BadBlock(codec: Codec, st: State, blocks: seq<Block>)
    requires Before(st, blocks) && blocks != [] && st.cursor + |blocks[0].stored| + 1 <= |st.data|
    requires !blocks[0].Good(codec)
    ensures !CleanEnd(Run(codec, Covering, st))
    ensures !blocks[0].Passes(codec) || blocks[0].mode != MODE_NESTED ==>
      Run(codec, Covering, st) == Failed(Stopped(codec, st, blocks[0]))
  {
    var b := blocks[0];
    NextChunk(st, blocks);
    assert blocks == [b] + blocks[1..];
    BlockBytes(st, b, blocks[1..]);
    WholeBlock(codec, st, |b.stored|);
    if b.Passes(codec) { NotOpened(codec, st.(cursor := st.cursor + 1), b); }
    var m := Advance(codec, Covering, st);
    if m.Next? { ErrorStays(codec, m.state); }
  }

  lemma {:induction false} NotOpened(codec: Codec, st: State, b: Block)
    requires 0 < st.cursor && st.cursor + |b.stored| <= |st.data| && st.step >= DATA_BLOCKS && b.Opened(codec).None?
    requires st.data[st.cursor..st.cursor + |b.stored|] == b.stored
    ensures var m := Unpack(codec, Covering, st, b.mode, |b.stored|);
      && !m.Wait? && (m.Next? ==> m.state.error.Some?)
      && (b.mode == MODE_DEFLATED ==> m == Fail(st.(output := st.output + Inflate(codec, b.stored).output, error := Some(BadAlloc))))
      && (b.mode !in {MODE_DEFLATED, MODE_NESTED} ==> m == Fail(st.(error := Some(UnexpectedBody))))
  {
  }

  /** An error that a nested stream reports stays. */
  lemma {:induction false} ErrorStays(codec: Codec, st: State)
    requires st.cursor <= |st.data| && st.error.Some?
    ensures !CleanEnd(Run(codec, Covering, st))
    decreases |st.data|, 3, StepsLeft(st), |st.data| - st.cursor
  {
    var m := Advance(codec, Covering, st);
    if m.Next? { ErrorStays(codec, m.state); }
  }

  /** The state once the first `k` of the blocks are decoded. */
  function After(codec: Codec, st: State, blocks: seq<Block>, k: nat): State
    requires k <= |blocks|
  {
    st.(cursor := st.cursor + |Body(blocks[..k])|, step := st.step + k, output := st.output + Contents(codec, blocks[..k]))
  }

  lemma AfterNone(codec: Codec, st: State, blocks: seq<Block>)
    ensures After(codec, st, blocks, 0) == st
  {
    assert blocks[..0] == [] && st.output + [] == st.output;
  }

  lemma AfterOne(codec: Codec, st: State, blocks: seq<Block>, k: nat)
    requires 0 < k <= |blocks|
    ensures After(codec, Past(codec, st, blocks[0]), blocks[1..], k - 1) == After(codec, st, blocks, k)
  {
    var first, done := blocks[0], blocks[..k];
    assert done[0] == first && done[1..] == blocks[1..][..k - 1];
    assert (st.output + first.Content(codec)) + Contents(codec, done[1..]) == st.output + Contents(codec, done);
  }

  lemma {:induction false} WaitsInBlock(codec: Codec, st: State, blocks: seq<Block>)
    requires Before(st, blocks) && Complete(blocks, |st.data| - st.cursor) == 0
    ensures Run(codec, Covering, st) == Waiting(st)
  {
    if blocks != [] { NextChunk(st, blocks); }
    assert ReadBlock(codec, Covering, st).Wait?;
  }

  /** Where the decoder ends that stands before these blocks and has `m` bytes: if all the complete blocks are good it
      has handed on their contents and waits in the next one; otherwise the first that is not good stops it. */
  ghost predicate EndsIn(codec: Codec, e: Ending, st: State, blocks: seq<Block>, m: nat) {
    var k, f := Complete(blocks, m), Held(codec, blocks);
    if k <= f then e == Waiting(After(codec, st, blocks, k))
    else
      && !CleanEnd(e)
      && (!blocks[f].Passes(codec) || blocks[f].mode != MODE_NESTED ==>
           e == Failed(Stopped(codec, After(codec, st, blocks, f), blocks[f])))
  }

  lemma RunPast(codec: Codec, st: State, blocks: seq<Block>)
    requires Before(st, blocks) && blocks != [] && st.cursor + |blocks[0].stored| + 1 <= |st.data|
    requires blocks[0].Good(codec)
    ensures var past := Past(codec, st, blocks[0]);
      Before(past, blocks[1..]) && Run(codec, Covering, st) == Run(codec, Covering, past)
  {
    PastBefore(codec, st, blocks);
    GoodBlock(codec, st, blocks);
  }

  lemma {:induction false} RunBlocks(codec: Codec, st: State, blocks: seq<Block>)
    requires Before(st, blocks)
    ensures EndsIn(codec, Run(codec, Covering, st), st, blocks, |st.data| - st.cursor)
    decreases |blocks|
  {
    AfterNone(codec, st, blocks);
    var m := |st.data| - st.cursor;
    if Complete(blocks, m) == 0 {
      WaitsInBlock(codec, st, blocks);
    } else if blocks[0].Good(codec) {
      var past, e := Past(codec, st, blocks[0]), Run(codec, Covering, st);
      RunPast(codec, st, blocks);
      RunBlocks(codec, past, blocks[1..]);
      EndsInRest(codec, e, st, blocks, m);
    } else {
      BadBlock(codec, st, blocks);
    }
  }

  lemma EndsInRest(codec: Codec, e: Ending, st: State, blocks: seq<Block>, m: nat)
    requires blocks != [] && |blocks[0].stored| + 1 <= m && blocks[0].Good(codec)
    requires EndsIn(codec, e, Past(codec, st, blocks[0]), blocks[1..], m - (|blocks[0].stored| + 1))
    ensures EndsIn(codec, e, st, blocks, m)
  {
    AfterOne(codec, st, blocks, Complete(blocks, m));
    AfterOne(codec, st, blocks, Held(codec, blocks));
  }

  // ----- the whole archive -----

  /** The fields of the preamble, as far as they are there. */
  ghost predicate Begins(data: seq<byte>, blocks: seq<Block>, flags: byte, filler: nat) {
    && |blocks| < 0x100_0000
    && (|data| >= 8 ==> Le32(data, 0) == SIGNATURE && Be32(data, 4) == HeaderSize(blocks, filler))
    && (|data| >= 12 ==> Be32(data, 8) == FlagsAndCount(flags, |blocks|))
    && (|data| >= 12 + 24 * |blocks| ==> Entries(data, 12, |blocks|) == Chunks(blocks))
  }

  lemma PreambleFields(blocks: seq<Block>, flags: byte, filler: nat, data: seq<byte>)
    requires Writable(blocks, filler)
    requires |data| >= 12 ==> data[..12] == Preamble(blocks, flags, filler)
    requires |data| < 12 ==> data == Preamble(blocks, flags, filler)[..|data|]
    ensures |data| >= 8 ==> Le32(data, 0) == SIGNATURE && Be32(data, 4) == HeaderSize(blocks, filler)
    ensures |data| >= 12 ==> Be32(data, 8) == FlagsAndCount(flags, |blocks|)
  {
    var size, word := HeaderSize(blocks, filler), FlagsAndCount(flags, |blocks|);
    var p := Preamble(blocks, flags, filler);
    assert p[4..8] == Bytes32(size) && p[8..12] == Bytes32(word);
    assert forall i | 0 <= i < |data| && i < 12 :: data[i] == p[i];
    if |data| >= 8 {
      assert data[4..8] == p[4..8];
      Be32At(data, 4, size);
    }
    if |data| >= 12 {
      assert data[8..12] == p[8..12];
      Be32At(data, 8, word);
    }
  }

  lemma ArchiveBegins(blocks: seq<Block>, flags: byte, filler: nat, bytes: seq<byte>, data: seq<byte>)
    requires Writable(blocks, filler) && data <= Header(blocks, flags, filler) + bytes
    ensures Begins(data, blocks, flags, filler)
  {
    var h := Header(blocks, flags, filler);
    var p := Preamble(blocks, flags, filler);
    assert h[..12] == p && h[12..] == Table(blocks);
    if |data| < 12 { assert data == p[..|data|]; } else { assert data[..12] == p; }
    PreambleFields(blocks, flags, filler, data);
    if |data| >= |h| {
      assert data[12..|h|] == h[12..];
      TableHolds(blocks, data, 12, |h|);
      EntriesRead(blocks, data, 12);
    }
  }

  function Started(data: seq<byte>, blocks: seq<Block>, filler: nat): State {
    START.(data := data, cursor := 8, step := CHUNK_HEADERS, headerSize := HeaderSize(blocks, filler))
  }

  function Ready(data: seq<byte>, blocks: seq<Block>, filler: nat): State {
    Started(data, blocks, filler).(cursor := 12 + 24 * |blocks|, step := DATA_BLOCKS, chunks := Chunks(blocks))
  }

  /** What the decoder goes on to see before it takes the table: the header and eight bytes more. */
  function TableTakenAt(blocks: seq<Block>, filler: nat): nat {
    HeaderSize(blocks, filler) + 8
  }

  /** Too few bytes for the table. */
  lemma {:induction false} EarlyPrefix(codec: Codec, blocks: seq<Block>, flags: byte, filler: nat, data: seq<byte>)
    requires Begins(data, blocks, flags, filler) && |data| < TableTakenAt(blocks, filler)
    ensures Run(codec, Covering, START.(data := data)) ==
      Waiting(if |data| < 8 then START.(data := data) else Started(data, blocks, filler))
  {
    var st := START.(data := data);
    if |data| >= 8 {
      assert Advance(codec, Covering, st) == Next(Started(data, blocks, filler));
      assert Advance(codec, Covering, Started(data, blocks, filler)).Wait?;
    }
  }

  lemma {:induction false} TableTaken(codec: Codec, blocks: seq<Block>, flags: byte, filler: nat, data: seq<byte>)
    requires Begins(data, blocks, flags, filler) && |data| >= TableTakenAt(blocks, filler)
    ensures Advance(codec, Covering, START.(data := data)) == Next(Started(data, blocks, filler))
    ensures Advance(codec, Covering, Started(data, blocks, filler)) ==
      if flags == 0xF && blocks != [] then Next(Ready(data, blocks, filler))
      else Fail(Started(data, blocks, filler).(cursor := 12, error := Some(NeedMore)))
  {
    var started := Started(data, blocks, filler);
    assert ReadHeader(START.(data := data)) == Next(started);
    FullTable(data, 12, |blocks|);
    assert PeekBe32(data, 8) == Value32(FlagsAndCount(flags, |blocks|)) && Taken(data, 8, 4) == 4;
    assert ReadChunkHeaders(started) ==
      if flags == 0xF && blocks != [] then Next(Ready(data, blocks, filler))
      else Fail(started.(cursor := 12, error := Some(NeedMore)));
  }

  lemma {:induction false} RunHeader(codec: Codec, blocks: seq<Block>, flags: byte, filler: nat, data: seq<byte>)
    requires Begins(data, blocks, flags, filler) && |data| >= TableTakenAt(blocks, filler)
    ensures Run(codec, Covering, START.(data := data)) ==
      if flags == 0xF && blocks != [] then Run(codec, Covering, Ready(data, blocks, filler))
      else Failed(Started(data, blocks, filler).(cursor := 12, error := Some(NeedMore)))
  {
    TableTaken(codec, blocks, flags, filler, data);
    assert Run(codec, Covering, Started(data, blocks, filler)) ==
      if flags == 0xF && blocks != [] then Run(codec, Covering, Ready(data, blocks, filler))
      else Failed(Started(data, blocks, filler).(cursor := 12, error := Some(NeedMore)));
  }

  /** Fed the header and some bytes of the blocks, the decoder takes nothing until eight bytes more than the header are
      there; then it has decoded the blocks that are complete, up to the first that is not good. */
  lemma {:induction false} PrefixDecodes(codec: Codec, blocks: seq<Block>, filler: nat, bytes: seq<byte>)
    requires Writable(blocks, filler) && blocks != [] && Lie(bytes, blocks)
    ensures var data := Header(blocks, 0xF, filler) + bytes;
      var e := Run(codec, Covering, START.(data := data));
      if |bytes| < filler + 8 then e == Waiting(Started(data, blocks, filler))
      else EndsIn(codec, e, Ready(data, blocks, filler), blocks, |bytes|)
  {
    var data := Header(blocks, 0xF, filler) + bytes;
    ArchiveBegins(blocks, 0xF, filler, bytes, data);
    if |bytes| < filler + 8 {
      EarlyPrefix(codec, blocks, 0xF, filler, data);
    } else {
      RunHeader(codec, blocks, 0xF, filler, data);
      var ready := Ready(data, blocks, filler);
      assert ready.data[ready.cursor..] == bytes && ready.chunks[0..] == Chunks(blocks);
      RunBlocks(codec, ready, blocks);
    }
  }

  lemma {:induction false} AllComplete(blocks: seq<Block>, m: nat)
    requires m >= |Body(blocks)|
    ensures Complete(blocks, m) == |blocks|
  {
    if blocks != [] { AllComplete(blocks[1..], m - (|blocks[0].stored| + 1)); }
  }

  predicate AllGood(codec: Codec, blocks: seq<Block>) {
    forall b | b in blocks :: b.Good(codec)
  }

  /** What comes of an archive: nothing at all if the blocks and what follows them take too few bytes; otherwise the
      decoder ends without error exactly if the flags are the expected ones and the archive has blocks and all of them
      are good, and then it has handed on their contents. */
  predicate Decodes(codec: Codec, e: Ending, blocks: seq<Block>, flags: byte, filler: nat, n: nat) {
    if n < filler + 8 then CleanEnd(e) && e.state.output == []
    else
      && (CleanEnd(e) <==> flags == 0xF && blocks != [] && AllGood(codec, blocks))
      && (CleanEnd(e) ==> e.state.output == Contents(codec, blocks))
  }

  lemma {:induction false} ArchiveDecodes(codec: Codec, blocks: seq<Block>, flags: byte, filler: nat, rest: seq<byte>)
    requires Writable(blocks, filler)
    ensures Decodes(codec, Run(codec, Covering, START.(data := Archive(blocks, flags, filler, rest))),
                    blocks, flags, filler, |Body(blocks) + rest|)
  {
    var bytes, data := Body(blocks) + rest, Archive(blocks, flags, filler, rest);
    ArchiveBegins(blocks, flags, filler, bytes, data);
    if |bytes| < filler + 8 {
      EarlyPrefix(codec, blocks, flags, filler, data);
    } else if flags == 0xF && blocks != [] {
      BodyLies(blocks, rest, bytes);
      PrefixDecodes(codec, blocks, filler, bytes);
      AllComplete(blocks, |bytes|);
      HeldAll(codec, blocks);
      assert blocks[..|blocks|] == blocks && [] + Contents(codec, blocks) == Contents(codec, blocks);
    } else {
      RunHeader(codec, blocks, flags, filler, data);
    }
  }

  /** The first block that is not good stops the decoder behind the contents of those before it. */
  lemma {:induction false} ArchiveStops(codec: Codec, blocks: seq<Block>, filler: nat, rest: seq<byte>)
    requires Writable(blocks, filler) && |Body(blocks) + rest| >= filler + 8 && Held(codec, blocks) < |blocks|
    ensures var e, f := Run(codec, Covering, START.(data := Archive(blocks, 0xF, filler, rest))), Held(codec, blocks);
      !blocks[f].Passes(codec) ==>
        e.Failed? && e.state.error == Some(BodyLimit) && e.state.output == Contents(codec, blocks[..f])
  {
    var bytes, done := Body(blocks) + rest, blocks[..Held(codec, blocks)];
    BodyLies(blocks, rest, bytes);
    PrefixDecodes(codec, blocks, filler, bytes);
    AllComplete(blocks, |bytes|);
    assert [] + Contents(codec, done) == Contents(codec, done);
  }

  lemma HeldAll(codec: Codec, blocks: seq<Block>)
    ensures Held(codec, blocks) == |blocks| <==> AllGood(codec, blocks)
  {
    if Held(codec, blocks) == |blocks| {
      forall b | b in blocks
        ensures b.Good(codec)
      {
        var i :| 0 <= i < |blocks| && blocks[i] == b;
      }
    }
  }

  // ----- archives in fragments -----

  predicate NoneNested(blocks: seq<Block>) {
    forall b | b in blocks :: b.mode != MODE_NESTED
  }

  lemma {:induction false} NoNestedBlockAhead(data: seq<byte>, cursor: nat, blocks: seq<Block>)
    requires NoneNested(blocks) && cursor <= |data| && Lie(data[cursor..], blocks)
    ensures NoNestedFrom(data, cursor, Chunks(blocks))
    decreases |blocks|
  {
    if blocks != [] && cursor < |data| {
      assert data[cursor] == data[cursor..][0] && blocks[0] in blocks;
      var next := cursor + |blocks[0].stored| + 1;
      if next <= |data| {
        assert data[cursor..][|blocks[0].stored| + 1..] == data[next..];
        NoNestedBlockAhead(data, next, blocks[1..]);
      }
      assert Chunks(blocks)[1..] == Chunks(blocks[1..]);
    }
  }

  lemma BeginsFits(blocks: seq<Block>, flags: byte, filler: nat, data: seq<byte>)
    requires Begins(data, blocks, flags, filler)
    ensures HeaderFits(data)
  {
  }

  /** Any prefix of an archive without nested streams may be cut into fragments. */
  lemma {:induction false} PrefixMayBeCut(blocks: seq<Block>, flags: byte, filler: nat, rest: seq<byte>, data: seq<byte>)
    requires Writable(blocks, filler) && NoneNested(blocks) && data <= Archive(blocks, flags, filler, rest)
    ensures HeaderFits(data) && NoNestedBlocks(data)
  {
    var h, bytes := Header(blocks, flags, filler), Body(blocks) + rest;
    ArchiveBegins(blocks, flags, filler, bytes, data);
    BeginsFits(blocks, flags, filler, data);
    if |data| >= |h| {
      TakeDrop(h, bytes, data);
      BodyLies(blocks, rest, data[|h|..]);
      NoNestedBlockAhead(data, |h|, blocks);
    }
  }

  /** Cut anywhere into fragments, an archive without nested streams decodes as it does in one piece. */
  lemma {:induction false} FragmentedArchiveDecodes(codec: Codec, blocks: seq<Block>, flags: byte, filler: nat,
                                                    rest: seq<byte>, fragments: seq<seq<byte>>)
    requires Writable(blocks, filler) && NoneNested(blocks) && Concat(fragments) == Archive(blocks, flags, filler, rest)
    ensures Decodes(codec, ParseAll(codec, Covering, START, fragments), blocks, flags, filler, |Body(blocks) + rest|)
  {
    var data := Concat(fragments);
    assert START.data + data == data;
    PrefixMayBeCut(blocks, flags, filler, rest, data);
    PlainFragmentation(codec, fragments);
    ArchiveDecodes(codec, blocks, flags, filler, rest);
  }

  /** The decoder has taken the table and nothing but good blocks, and the bytes end one short of the end of the next. */
  predicate ShortCut(codec: Codec, blocks: seq<Block>, filler: nat, at: nat) {
    TableTakenAt(blocks, filler) <= at &&
    var m := at - (12 + 24 * |blocks|);
    var k := Complete(blocks, m);
    k <= Held(codec, blocks) && k < |blocks| && m + 1 == |Body(blocks[..k + 1])|
  }

  /** A block that is not good is complete. */
  predicate Beyond(codec: Codec, blocks: seq<Block>, filler: nat, at: nat) {
    TableTakenAt(blocks, filler) <= at && Complete(blocks, at - (12 + 24 * |blocks|)) > Held(codec, blocks)
  }

  /** Where the decoder is after any prefix of an archive. */
  lemma {:induction false} CutState(codec: Codec, blocks: seq<Block>, filler: nat, rest: seq<byte>, data: seq<byte>)
    requires Writable(blocks, filler) && blocks != [] && NoneNested(blocks) && data <= Archive(blocks, 0xF, filler, rest)
    ensures var e := Run(codec, Covering, START.(data := data));
      if e.Waiting? then e.state.error.None? && (Exposed(e.state) <==> ShortCut(codec, blocks, filler, |data|))
      else Beyond(codec, blocks, filler, |data|)
  {
    var h, bytes := Header(blocks, 0xF, filler), Body(blocks) + rest;
    if |data| < TableTakenAt(blocks, filler) {
      ArchiveBegins(blocks, 0xF, filler, bytes, data);
      EarlyPrefix(codec, blocks, 0xF, filler, data);
    } else {
      TakeDrop(h, bytes, data);
      var there := data[|h|..];
      assert data == h + there;
      BodyLies(blocks, rest, there);
      PrefixDecodes(codec, blocks, filler, there);
      CutInBlocks(codec, blocks, filler, data, |there|, Run(codec, Covering, START.(data := data)));
    }
  }

  lemma CutInBlocks(codec: Codec, blocks: seq<Block>, filler: nat, data: seq<byte>, m: nat, e: Ending)
    requires NoneNested(blocks) && |data| == 12 + 24 * |blocks| + m >= TableTakenAt(blocks, filler)
    requires EndsIn(codec, e, Ready(data, blocks, filler), blocks, m)
    ensures e.Waiting? ==> e.state.error.None? && (Exposed(e.state) <==> ShortCut(codec, blocks, filler, |data|))
    ensures !e.Waiting? ==> Beyond(codec, blocks, filler, |data|)
  {
    var k := Complete(blocks, m);
    if k <= Held(codec, blocks) {
      AwaitedAfter(codec, Ready(data, blocks, filler), blocks, k);
    }
  }

  lemma AwaitedAfter(codec: Codec, st: State, blocks: seq<Block>, k: nat)
    requires k <= |blocks| && st.step == DATA_BLOCKS && st.chunks == Chunks(blocks)
    ensures Exposed(After(codec, st, blocks, k)) <==> k < |blocks| && st.cursor + |Body(blocks[..k + 1])| == |st.data| + 1
  {
    if k < |blocks| {
      BodySnoc(blocks[..k], blocks[k]);
      assert blocks[..k + 1] == blocks[..k] + [blocks[k]];
      ChunkAt(blocks, k);
    }
  }

  lemma {:induction false} ChunkAt(blocks: seq<Block>, k: nat)
    requires k < |blocks|
    ensures Chunks(blocks)[k] == blocks[k].ChunkOf()
  {
    if k > 0 { ChunkAt(blocks[1..], k - 1); }
  }

  lemma {:induction false} BodySnoc(blocks: seq<Block>, b: Block)
    ensures Body(blocks + [b]) == Body(blocks) + b.Wire()
  {
    if blocks == [] {
      assert [b][1..] == [] && Body([b]) == b.Wire() + [];
    } else {
      assert (blocks + [b])[1..] == blocks[1..] + [b];
      BodySnoc(blocks[1..], b);
    }
  }

  lemma {:induction false} CompleteGrows(blocks: seq<Block>, m: nat, n: nat)
    requires m <= n
    ensures Complete(blocks, m) <= Complete(blocks, n)
  {
    if blocks != [] && m >= |blocks[0].stored| + 1 {
      CompleteGrows(blocks[1..], m - (|blocks[0].stored| + 1), n - (|blocks[0].stored| + 1));
    }
  }

  /** Once a block that is not good is complete, no later cut is short. */
  lemma NoLaterShortCut(codec: Codec, blocks: seq<Block>, filler: nat, from: nat)
    requires Beyond(codec, blocks, filler, from)
    ensures forall at: nat | at >= from :: !ShortCut(codec, blocks, filler, at)
  {
    forall at: nat | at >= from
      ensures !ShortCut(codec, blocks, filler, at)
    {
      CompleteGrows(blocks, from - (12 + 24 * |blocks|), at - (12 + 24 * |blocks|));
    }
  }

  function ShortCuts(codec: Codec, blocks: seq<Block>, filler: nat): nat -> bool {
    (at: nat) => ShortCut(codec, blocks, filler, at)
  }

  lemma ShortCutsKnown(codec: Codec, blocks: seq<Block>, filler: nat, rest: seq<byte>, data: seq<byte>)
    requires Writable(blocks, filler) && blocks != [] && NoneNested(blocks) && data <= Archive(blocks, 0xF, filler, rest)
    ensures ExposureKnown(codec, data, ShortCuts(codec, blocks, filler))
  {
    assert HeaderFits(data) by { PrefixMayBeCut(blocks, 0xF, filler, rest, data); }
    CutState(codec, blocks, filler, rest, data);
    if Beyond(codec, blocks, filler, |data|) { NoLaterShortCut(codec, blocks, filler, |data|); }
  }

  /** The source, with its own guard, ends over the fragments of an archive, or of any prefix of it, as it should exactly
      if none of them ends eight bytes or more behind the header and one byte short of the end of a block, with only good
      blocks before. */
  lemma {:induction false} AsWrittenOnArchive(codec: Codec, blocks: seq<Block>, filler: nat, rest: seq<byte>,
                                              fragments: seq<seq<byte>>)
    requires Writable(blocks, filler) && blocks != [] && NoneNested(blocks)
    requires Concat(fragments) <= Archive(blocks, 0xF, filler, rest)
    ensures ParseAll(codec, AsWritten, START, fragments) == ParseAll(codec, Covering, START, fragments) <==>
      forall i | 0 < i <= |fragments| :: !ShortCut(codec, blocks, filler, Cut(fragments, i))
  {
    var all := Concat(fragments);
    assert START.data + all == all && |START.data| == 0;
    PrefixMayBeCut(blocks, 0xF, filler, rest, all);
    NoNestedRun(codec, all);
    AsWrittenFragments(codec, START, fragments);
    forall data | data <= all
      ensures ExposureKnown(codec, data, ShortCuts(codec, blocks, filler))
    {
      ShortCutsKnown(codec, blocks, filler, rest, data);
    }
    ExposedAtCuts(codec, START, fragments, all, ShortCuts(codec, blocks, filler));
    SomeCutWhere(ShortCuts(codec, blocks, filler), 0, fragments);
  }
}
