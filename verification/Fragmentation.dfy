/** How a body is cut into fragments does not matter to the decoder. */
module Fragmentation {
  import opened Bytes
  import opened MemoryStreams
  import opened BlockStream

  /** The header announces room for its own table. */
  predicate HeaderFits(data: seq<byte>) {
    && (|data| >= 8 ==> Be32(data, 4) >= 4)
    && (|data| >= 12 ==> Be32(data, 4) >= 4 + 24 * (Be32(data, 8) % 0x100_0000))
  }

  /** States that are reached from the start. */
  predicate OnTrack(st: State) {
    && st.cursor <= |st.data|
    && (st.step == HEADER ==> st.cursor == 0)
    && (st.step == CHUNK_HEADERS ==> st.cursor == 8 && st.headerSize == Be32(st.data, 4))
  }

  /** An entry of the table that is all there. */
  function EntryAt(data: seq<byte>, cursor: nat): Chunk
    requires cursor + 24 <= |data|
  {
    Chunk(LessOne(Be32(data, cursor)), Be32(data, cursor + 4), data[cursor + 8..cursor + 24])
  }

  function Entries(data: seq<byte>, cursor: nat, n: nat): seq<Chunk>
    requires cursor + 24 * n <= |data|
    decreases n
  {
    if n == 0 then [] else [EntryAt(data, cursor)] + Entries(data, cursor + 24, n - 1)
  }

  lemma FullEntry(data: seq<byte>, cursor: nat)
    requires cursor + 24 <= |data|
    ensures PeekChunk(data, cursor) == Some((EntryAt(data, cursor), cursor + 24))
  {
    assert data[cursor + 8..cursor + 24] + Zeros(0) == data[cursor + 8..cursor + 24];
  }

  /** A table that is all there is read entry by entry. */
  lemma {:induction false} FullTable(data: seq<byte>, cursor: nat, n: nat)
    requires cursor + 24 * n <= |data|
    ensures ReadTable(data, cursor, n) == Some((Entries(data, cursor, n), cursor + 24 * n))
    decreases n
  {
    if n > 0 {
      FullEntry(data, cursor);
      FullTable(data, cursor + 24, n - 1);
    }
  }

  lemma EntryStable(data: seq<byte>, more: seq<byte>, cursor: nat)
    requires cursor + 24 <= |data|
    ensures EntryAt(data + more, cursor) == EntryAt(data, cursor)
  {
    assert (data + more)[cursor + 8..cursor + 24] == data[cursor + 8..cursor + 24];
    assert Be32(data + more, cursor) == Be32(data, cursor) && Be32(data + more, cursor + 4) == Be32(data, cursor + 4);
  }

  lemma {:induction false} EntriesStable(data: seq<byte>, more: seq<byte>, cursor: nat, n: nat)
    requires cursor + 24 * n <= |data|
    ensures Entries(data + more, cursor, n) == Entries(data, cursor, n)
    decreases n
  {
    if n > 0 {
      EntriesStable(data, more, cursor + 24, n - 1);
      EntryStable(data, more, cursor);
      assert Entries(data + more, cursor, n) == [EntryAt(data + more, cursor)] + Entries(data + more, cursor + 24, n - 1);
    }
  }

  lemma TableStable(data: seq<byte>, more: seq<byte>, cursor: nat, n: nat)
    requires cursor + 24 * n <= |data|
    ensures ReadTable(data + more, cursor, n) == ReadTable(data, cursor, n)
    ensures ReadTable(data, cursor, n).Some? && ReadTable(data, cursor, n).value.1 == cursor + 24 * n
  {
    FullTable(data, cursor, n);
    FullTable(data + more, cursor, n);
    EntriesStable(data, more, cursor, n);
  }

  /** What the decoder does with the bytes it has, it does with more bytes behind them. */
  lemma {:induction false} AdvanceStable(codec: Codec, st: State, more: seq<byte>)
    requires OnTrack(st) && HeaderFits(st.data + more)
    ensures match Advance(codec, Covering, st)
      case Wait => true
      case Next(next) => OnTrack(next) && Advance(codec, Covering, Fed(st, more)) == Next(Fed(next, more))
      case Fail(failed) => Advance(codec, Covering, Fed(st, more)) == Fail(Fed(failed, more))
      case Fault => Advance(codec, Covering, Fed(st, more)).Fault?
  {
    if st.step == HEADER {
    } else if st.step == CHUNK_HEADERS {
      ChunkHeadersStable(st, more);
    } else {
      BlockStable(codec, st, more);
    }
  }

  lemma {:induction false} ChunkHeadersStable(st: State, more: seq<byte>)
    requires OnTrack(st) && st.step == CHUNK_HEADERS && HeaderFits(st.data + more)
    ensures match ReadChunkHeaders(st)
      case Wait => true
      case Next(next) => OnTrack(next) && ReadChunkHeaders(Fed(st, more)) == Next(Fed(next, more))
      case Fail(failed) => ReadChunkHeaders(Fed(st, more)) == Fail(Fed(failed, more))
      case Fault => false
  {
    if st.cursor + st.headerSize <= |st.data| {
      var all := st.data + more;
      assert Be32(all, 4) == Be32(st.data, 4) && Be32(all, 8) == Be32(st.data, 8);
      TableStable(st.data, more, 12, Be32(st.data, 8) % 0x100_0000);
    }
  }

  lemma {:induction false} UnpackStable(codec: Codec, st: State, more: seq<byte>, mode: byte, size: nat)
    requires 0 < st.cursor && st.cursor + size <= |st.data| && st.step >= DATA_BLOCKS
    ensures match Unpack(codec, Covering, st, mode, size)
      case Wait => false
      case Next(next) => OnTrack(next) && Unpack(codec, Covering, Fed(st, more), mode, size) == Next(Fed(next, more))
      case Fail(failed) => Unpack(codec, Covering, Fed(st, more), mode, size) == Fail(Fed(failed, more))
      case Fault => Unpack(codec, Covering, Fed(st, more), mode, size).Fault?
  {
    assert (st.data + more)[st.cursor..st.cursor + size] == st.data[st.cursor..st.cursor + size];
  }

  /** A block of which everything is there. */
  lemma WholeBlock(codec: Codec, st: State, size: nat)
    requires st.step >= DATA_BLOCKS && st.step - DATA_BLOCKS < |st.chunks|
    requires size == st.chunks[st.step - DATA_BLOCKS].compressedSize && st.cursor + size + 1 <= |st.data|
    ensures ReadBlock(codec, Covering, st) ==
      if codec.digest(st.data[st.cursor..st.cursor + size]) != st.chunks[st.step - DATA_BLOCKS].checksum then
        Fail(st.(error := Some(BodyLimit)))
      else Unpack(codec, Covering, st.(cursor := st.cursor + 1), st.data[st.cursor], size)
  {
  }

  lemma {:induction false} WholeBlockStable(codec: Codec, st: State, more: seq<byte>, size: nat)
    requires st.step >= DATA_BLOCKS && st.step - DATA_BLOCKS < |st.chunks|
    requires size == st.chunks[st.step - DATA_BLOCKS].compressedSize && st.cursor + size + 1 <= |st.data|
    ensures match ReadBlock(codec, Covering, st)
      case Wait => false
      case Next(next) => OnTrack(next) && ReadBlock(codec, Covering, Fed(st, more)) == Next(Fed(next, more))
      case Fail(failed) => ReadBlock(codec, Covering, Fed(st, more)) == Fail(Fed(failed, more))
      case Fault => ReadBlock(codec, Covering, Fed(st, more)).Fault?
  {
    var fed, begun := Fed(st, more), st.(cursor := st.cursor + 1);
    assert fed.data[st.cursor..st.cursor + size] == st.data[st.cursor..st.cursor + size];
    assert fed.data[st.cursor] == st.data[st.cursor] && fed.(cursor := st.cursor + 1) == Fed(begun, more);
    WholeBlock(codec, st, size);
    WholeBlock(codec, fed, size);
    UnpackStable(codec, begun, more, st.data[st.cursor], size);
  }

  lemma {:induction false} BlockStable(codec: Codec, st: State, more: seq<byte>)
    requires st.cursor <= |st.data| && st.step >= DATA_BLOCKS
    ensures match ReadBlock(codec, Covering, st)
      case Wait => true
      case Next(next) => OnTrack(next) && ReadBlock(codec, Covering, Fed(st, more)) == Next(Fed(next, more))
      case Fail(failed) => ReadBlock(codec, Covering, Fed(st, more)) == Fail(Fed(failed, more))
      case Fault => ReadBlock(codec, Covering, Fed(st, more)).Fault?
  {
    if st.step - DATA_BLOCKS < |st.chunks| {
      var size := st.chunks[st.step - DATA_BLOCKS].compressedSize;
      if st.cursor + size + 1 <= |st.data| {
        WholeBlockStable(codec, st, more, size);
      }
    }
  }

  /** Running, then feeding and running again, is feeding and running once. */
  lemma {:induction false} RunFed(codec: Codec, st: State, more: seq<byte>)
    requires OnTrack(st) && HeaderFits(st.data + more)
    ensures Run(codec, Covering, Fed(st, more)) ==
      match Run(codec, Covering, st)
      case Waiting(rest) => Run(codec, Covering, Fed(rest, more))
      case Failed(failed) => Failed(Fed(failed, more))
      case Faulted => Faulted
    ensures Run(codec, Covering, st).Waiting? ==> OnTrack(Run(codec, Covering, st).state)
    decreases |st.data|, 3, StepsLeft(st), |st.data| - st.cursor
  {
    AdvanceStable(codec, st, more);
    var m := Advance(codec, Covering, st);
    if m.Next? { RunFed(codec, m.state, more); }
  }

  lemma {:induction false} RunStops(codec: Codec, guard: Guard, st: State)
    requires st.cursor <= |st.data| && Run(codec, guard, st).Waiting?
    ensures var rest := Run(codec, guard, st).state;
      Advance(codec, guard, rest).Wait? && Run(codec, guard, rest) == Waiting(rest)
    decreases |st.data|, 3, StepsLeft(st), |st.data| - st.cursor
  {
    var m := Advance(codec, guard, st);
    if m.Next? { RunStops(codec, guard, m.state); }
  }

  /** No nested stream on the way reports an error. */
  predicate Clean(codec: Codec, guard: Guard, st: State)
    requires st.cursor <= |st.data|
    decreases |st.data|, 3, StepsLeft(st), |st.data| - st.cursor
  {
    st.error.None? && (Advance(codec, guard, st).Next? ==> Clean(codec, guard, Advance(codec, guard, st).state))
  }

  lemma {:induction false} CleanFed(codec: Codec, st: State, more: seq<byte>)
    requires OnTrack(st) && HeaderFits(st.data + more) && Clean(codec, Covering, Fed(st, more))
    ensures Run(codec, Covering, st).Waiting? ==>
      Run(codec, Covering, st).state.error.None? && Clean(codec, Covering, Fed(Run(codec, Covering, st).state, more))
    decreases |st.data|, 3, StepsLeft(st), |st.data| - st.cursor
  {
    AdvanceStable(codec, st, more);
    var m := Advance(codec, Covering, st);
    if m.Next? { CleanFed(codec, m.state, more); }
  }

  /** Two ends that a caller cannot tell apart: after an error only the bytes that were not looked at differ. */
  predicate SameEnd(a: Ending, b: Ending) {
    match (a, b)
    case (Waiting(x), Waiting(y)) => x == y
    case (Failed(x), Failed(y)) => x.(data := y.data) == y && x.error.Some?
    case (Faulted, Faulted) => true
    case _ => false
  }

  lemma SplitFed(st: State, fragments: seq<seq<byte>>)
    requires fragments != []
    ensures st.data + Concat(fragments) == (st.data + fragments[0]) + Concat(fragments[1..])
    ensures Fed(Fed(st, fragments[0]), Concat(fragments[1..])) == Fed(st, Concat(fragments))
  {
    assert st.data + Concat(fragments) == (st.data + fragments[0]) + Concat(fragments[1..]);
  }

  lemma {:induction false} FragmentsFrom(codec: Codec, st: State, fragments: seq<seq<byte>>)
    requires OnTrack(st) && Run(codec, Covering, st) == Waiting(st)
    requires HeaderFits(st.data + Concat(fragments))
    requires Clean(codec, Covering, Fed(st, Concat(fragments)))
    ensures SameEnd(ParseAll(codec, Covering, st, fragments), Parse(codec, Covering, st, Concat(fragments)))
    decreases |fragments|
  {
    if fragments == [] {
      assert Fed(st, []) == st;
    } else {
      var fed, rest := Fed(st, fragments[0]), Concat(fragments[1..]);
      SplitFed(st, fragments);
      HeaderFitsPrefix(fed.data, rest);
      FedOnTrack(st, fragments[0]);
      RunFed(codec, fed, rest);
      CleanFed(codec, fed, rest);
      var e := Run(codec, Covering, fed);
      if e.Waiting? {
        RunStops(codec, Covering, fed);
        FragmentsFrom(codec, e.state, fragments[1..]);
      }
    }
  }

  lemma HeaderFitsPrefix(data: seq<byte>, more: seq<byte>)
    requires HeaderFits(data + more)
    ensures HeaderFits(data)
  {
    if |data| >= 8 { assert Be32(data + more, 4) == Be32(data, 4); }
    if |data| >= 12 { assert Be32(data + more, 8) == Be32(data, 8); }
  }

  lemma FedOnTrack(st: State, more: seq<byte>)
    requires OnTrack(st)
    ensures OnTrack(Fed(st, more))
  {
  }

  /** Fed in any fragments, a body leads to the same output, the same step and the same error as fed at once. */
  lemma {:induction false} FragmentationIndependence(codec: Codec, fragments: seq<seq<byte>>)
    requires HeaderFits(Concat(fragments))
    requires Clean(codec, Covering, START.(data := Concat(fragments)))
    ensures SameEnd(ParseAll(codec, Covering, START, fragments), Parse(codec, Covering, START, Concat(fragments)))
  {
    assert Run(codec, Covering, START) == Waiting(START);
    assert START.data + Concat(fragments) == Concat(fragments);
    FragmentsFrom(codec, START, fragments);
  }

  /** One more fragment, given to the decoder and seen from the start. */
  lemma {:induction false} ContinuesDecoding(codec: Codec, before: State, fragment: seq<byte>)
    requires OnTrack(before) && HeaderFits(before.data + fragment)
    requires Run(codec, Covering, START.(data := before.data)) == Waiting(before)
    ensures var e := Parse(codec, Covering, before, fragment);
      && Run(codec, Covering, START.(data := before.data + fragment)) == e
      && (e.Waiting? ==> OnTrack(e.state) && e.state.data == before.data + fragment)
  {
    RunFed(codec, START.(data := before.data), fragment);
    assert Fed(START.(data := before.data), fragment) == START.(data := before.data + fragment);
    FedOnTrack(before, fragment);
    assert Fed(before, fragment).data + [] == before.data + fragment;
    RunFed(codec, Fed(before, fragment), []);
  }

  // ----- bodies without nested streams -----

  /** From the cursor on, no block that these entries announce begins as a nested stream. */
  predicate NoNestedFrom(data: seq<byte>, cursor: nat, chunks: seq<Chunk>)
    decreases |chunks|
  {
    chunks == [] || cursor >= |data| ||
    (data[cursor] != MODE_NESTED && NoNestedFrom(data, cursor + chunks[0].compressedSize + 1, chunks[1..]))
  }

  /** No block of a body has the mode of a nested stream: this looks at the table and at the mode bytes only. */
  predicate NoNestedBlocks(data: seq<byte>) {
    |data| >= 12 ==>
      var n := Be32(data, 8) % 0x100_0000;
      |data| >= 12 + 24 * n ==> NoNestedFrom(data, 12 + 24 * n, Entries(data, 12, n))
  }

  /** The next block, if its mode is there to see, is not a nested stream. */
  predicate NotNested(st: State) {
    st.step >= DATA_BLOCKS && st.cursor < |st.data| ==> st.data[st.cursor] != MODE_NESTED
  }

  /** No block on the way is a nested stream. */
  predicate NeverNested(codec: Codec, st: State)
    requires st.cursor <= |st.data|
    decreases |st.data|, 3, StepsLeft(st), |st.data| - st.cursor
  {
    (BlockAwaited(st) ==> NotNested(st)) &&
    (Advance(codec, Covering, st).Next? ==> NeverNested(codec, Advance(codec, Covering, st).state))
  }

  predicate BlockAwaited(st: State) {
    st.step >= DATA_BLOCKS && st.step - DATA_BLOCKS < |st.chunks|
  }

  lemma NoBlockLeft(codec: Codec, st: State)
    requires st.cursor <= |st.data| && st.step >= DATA_BLOCKS
    ensures !BlockAwaited(st) ==> Advance(codec, Covering, st).Wait?
  {
    assert !BlockAwaited(st) ==> ReadBlock(codec, Covering, st).Wait?;
  }

  lemma {:induction false} NoNestedAhead(codec: Codec, st: State)
    requires st.cursor <= |st.data| && st.step >= DATA_BLOCKS && st.step - DATA_BLOCKS <= |st.chunks|
    requires NoNestedFrom(st.data, st.cursor, st.chunks[st.step - DATA_BLOCKS..])
    ensures NeverNested(codec, st)
    decreases |st.chunks| - (st.step - DATA_BLOCKS)
  {
    var ahead := st.chunks[st.step - DATA_BLOCKS..];
    if ahead != [] {
      assert ahead[0] == st.chunks[st.step - DATA_BLOCKS];
      var m := Advance(codec, Covering, st);
      if m.Next? {
        BlockTaken(codec, st);
        assert m.state.chunks[m.state.step - DATA_BLOCKS..] == ahead[1..];
        NoNestedAhead(codec, m.state);
      }
    }
  }

  /** Where a block that was taken leaves the decoder. */
  lemma BlockTaken(codec: Codec, st: State)
    requires st.cursor <= |st.data| && BlockAwaited(st) && Advance(codec, Covering, st).Next?
    ensures var next := Advance(codec, Covering, st).state;
      && st.cursor < |st.data| && next.cursor == st.cursor + st.chunks[st.step - DATA_BLOCKS].compressedSize + 1
      && next.step == st.step + 1 && next.chunks == st.chunks
      && (st.data[st.cursor] != MODE_NESTED ==> next.error == st.error)
  {
    WholeBlock(codec, st, st.chunks[st.step - DATA_BLOCKS].compressedSize);
  }

  /** Where the header and the table leave the decoder. */
  lemma HeaderEntered(codec: Codec, data: seq<byte>)
    ensures var m := Advance(codec, Covering, START.(data := data));
      m.Next? ==> |data| >= 8 && m.state == State(data, 8, CHUNK_HEADERS, Be32(data, 4), [], [], None)
  {
  }

  lemma TableEntered(codec: Codec, data: seq<byte>)
    requires |data| >= 8 && HeaderFits(data)
    ensures var m := Advance(codec, Covering, State(data, 8, CHUNK_HEADERS, Be32(data, 4), [], [], None));
      m.Next? ==>
        && |data| >= 12
        && var n := Be32(data, 8) % 0x100_0000;
        && |data| >= 12 + 24 * n && m.state.data == data && m.state.error.None?
        && m.state.cursor == 12 + 24 * n && m.state.step == DATA_BLOCKS && m.state.chunks == Entries(data, 12, n)
  {
    var st := State(data, 8, CHUNK_HEADERS, Be32(data, 4), [], [], None);
    if 8 + st.headerSize <= |data| { FullTable(data, 12, Be32(data, 8) % 0x100_0000); }
    var m := ReadChunkHeaders(st);
  }

  /** What a body without nested streams leads to from the start. */
  lemma {:induction false} NoNestedRun(codec: Codec, data: seq<byte>)
    requires HeaderFits(data) && NoNestedBlocks(data)
    ensures NeverNested(codec, START.(data := data)) && Clean(codec, Covering, START.(data := data))
  {
    var st := START.(data := data);
    HeaderEntered(codec, data);
    var m := Advance(codec, Covering, st);
    if m.Next? {
      TableEntered(codec, data);
      var table := Advance(codec, Covering, m.state);
      if table.Next? {
        assert table.state.chunks[0..] == table.state.chunks;
        NoNestedAhead(codec, table.state);
      }
      assert NeverNested(codec, m.state);
    }
    NeverNestedIsClean(codec, st);
  }

  lemma {:induction false} NeverNestedIsClean(codec: Codec, st: State)
    requires st.cursor <= |st.data| && st.error.None? && NeverNested(codec, st)
    ensures Clean(codec, Covering, st)
    decreases |st.data|, 3, StepsLeft(st), |st.data| - st.cursor
  {
    var m := Advance(codec, Covering, st);
    if m.Next? {
      if st.step >= DATA_BLOCKS {
        NoBlockLeft(codec, st);
        BlockTaken(codec, st);
      }
      NeverNestedIsClean(codec, m.state);
    }
  }

  /** In particular, cutting a body of plain and deflated blocks does not matter. */
  lemma PlainFragmentation(codec: Codec, fragments: seq<seq<byte>>)
    requires HeaderFits(Concat(fragments)) && NoNestedBlocks(Concat(fragments))
    ensures SameEnd(ParseAll(codec, Covering, START, fragments), Parse(codec, Covering, START, Concat(fragments)))
  {
    NoNestedRun(codec, Concat(fragments));
    FragmentationIndependence(codec, fragments);
  }

  // ----- the guard as it is written -----

  /** Exactly the bytes the source waits for are there, and the one it forgot is not. */
  predicate Exposed(st: State) {
    BlockAwaited(st) && st.cursor + st.chunks[st.step - DATA_BLOCKS].compressedSize == |st.data|
  }

  /** The two guards part exactly at an exposed state, where the source never waits. */
  lemma {:induction false} GuardsPart(codec: Codec, st: State)
    requires st.cursor <= |st.data| && (BlockAwaited(st) ==> NotNested(st))
    ensures Advance(codec, AsWritten, st) == Advance(codec, Covering, st) <==> !Exposed(st)
    ensures Exposed(st) ==> Advance(codec, Covering, st).Wait? && !Advance(codec, AsWritten, st).Wait? &&
                            !Advance(codec, AsWritten, st).Next?
    ensures Exposed(st) && Advance(codec, AsWritten, st).Fail? ==> Advance(codec, AsWritten, st).state.data == st.data
  {
    if BlockAwaited(st) && st.cursor < |st.data| {
      var size := st.chunks[st.step - DATA_BLOCKS].compressedSize;
      var past := st.(cursor := st.cursor + 1);
      var mode := st.data[st.cursor];
      assert Unpack(codec, AsWritten, past, mode, size) == Unpack(codec, Covering, past, mode, size);
      if Exposed(st) { assert !Unpack(codec, AsWritten, past, mode, size).Next?; }
    }
  }

  /** In an exposed state a good block makes the source read past what it has. */
  lemma {:induction false} ExposedFaults(codec: Codec, st: State)
    requires st.cursor < |st.data| && Exposed(st)
    ensures Advance(codec, AsWritten, st).Fault? <==>
      codec.digest(st.data[st.cursor..]) == st.chunks[st.step - DATA_BLOCKS].checksum &&
      st.data[st.cursor] in {MODE_PLAIN, MODE_DEFLATED, MODE_NESTED}
  {
    assert st.data[st.cursor..|st.data|] == st.data[st.cursor..];
    var size := st.chunks[st.step - DATA_BLOCKS].compressedSize;
    var mode := st.data[st.cursor];
    assert Unpack(codec, AsWritten, st.(cursor := st.cursor + 1), mode, size).Fault? <==>
           mode in {MODE_PLAIN, MODE_DEFLATED, MODE_NESTED};
  }

  /** One call of the source does what it should exactly when it does not end waiting in an exposed state; there, it
      fails with the bytes it has or reads past them. */
  lemma {:induction false} AsWrittenRun(codec: Codec, st: State)
    requires st.cursor <= |st.data| && NeverNested(codec, st)
    ensures var e, written := Run(codec, Covering, st), Run(codec, AsWritten, st);
      && (written == e <==> !(e.Waiting? && Exposed(e.state)))
      && (e.Waiting? && Exposed(e.state) ==> written.Faulted? || (written.Failed? && written.state.data == st.data))
    decreases |st.data|, 3, StepsLeft(st), |st.data| - st.cursor
  {
    GuardsPart(codec, st);
    var m := Advance(codec, Covering, st);
    if m.Next? { AsWrittenRun(codec, m.state); }
  }

  /** Does a fragment end where the decoder waits in an exposed state? */
  predicate MeetsExposed(codec: Codec, st: State, fragments: seq<seq<byte>>)
    requires st.cursor <= |st.data|
    decreases |fragments|
  {
    fragments != [] &&
    var e := Parse(codec, Covering, st, fragments[0]);
    e.Waiting? && (Exposed(e.state) || (e.state.error.None? && MeetsExposed(codec, e.state, fragments[1..])))
  }

  lemma {:induction false} NeverNestedFed(codec: Codec, st: State, more: seq<byte>)
    requires OnTrack(st) && HeaderFits(st.data + more) && NeverNested(codec, Fed(st, more))
    ensures NeverNested(codec, st)
    ensures Run(codec, Covering, st).Waiting? ==> NeverNested(codec, Fed(Run(codec, Covering, st).state, more))
    decreases |st.data|, 3, StepsLeft(st), |st.data| - st.cursor
  {
    AdvanceStable(codec, st, more);
    if st.cursor < |st.data| { assert (st.data + more)[st.cursor] == st.data[st.cursor]; }
    var m := Advance(codec, Covering, st);
    if m.Next? { NeverNestedFed(codec, m.state, more); }
  }

  lemma {:induction false} StaysClean(codec: Codec, st: State)
    requires st.cursor <= |st.data| && Clean(codec, Covering, st)
    ensures Run(codec, Covering, st).Waiting? ==> Run(codec, Covering, st).state.error.None?
    decreases |st.data|, 3, StepsLeft(st), |st.data| - st.cursor
  {
    var m := Advance(codec, Covering, st);
    if m.Next? { StaysClean(codec, m.state); }
  }

  /** Once in the blocks, the covering decoder does not fault, and fails with all it was fed. */
  lemma {:induction false} RunInBlocks(codec: Codec, st: State)
    requires st.cursor <= |st.data| && st.step >= DATA_BLOCKS && NeverNested(codec, st)
    ensures var e := Run(codec, Covering, st);
      !e.Faulted? && e.state.data == st.data && e.state.step >= DATA_BLOCKS
    decreases |st.data|, 3, StepsLeft(st), |st.data| - st.cursor
  {
    var m := Advance(codec, Covering, st);
    if BlockAwaited(st) { BlockSettled(codec, st); } else { NoBlockLeft(codec, st); }
    if m.Next? { RunInBlocks(codec, m.state); }
  }

  lemma BlockSettled(codec: Codec, st: State)
    requires st.cursor <= |st.data| && BlockAwaited(st) && NotNested(st)
    ensures var m := Advance(codec, Covering, st);
      !m.Fault? && (m.Fail? ==> m.state.data == st.data && m.state.step == st.step)
  {
    var size := st.chunks[st.step - DATA_BLOCKS].compressedSize;
    if st.cursor + size + 1 <= |st.data| {
      WholeBlock(codec, st, size);
      var past := st.(cursor := st.cursor + 1);
      var m := Unpack(codec, Covering, past, st.data[st.cursor], size);
      assert !m.Fault? && (m.Fail? ==> m.state.data == st.data && m.state.step == st.step);
    }
  }

  /** A decoder that waits in the blocks fails later only with more bytes, and does not fault. */
  lemma {:induction false} LaterEnd(codec: Codec, st: State, fragments: seq<seq<byte>>)
    requires OnTrack(st) && st.step >= DATA_BLOCKS && Run(codec, Covering, st) == Waiting(st)
    requires HeaderFits(st.data + Concat(fragments)) && NeverNested(codec, Fed(st, Concat(fragments)))
    ensures var e := ParseAll(codec, Covering, st, fragments); !e.Faulted? && (e.Failed? ==> |e.state.data| > |st.data|)
    decreases |fragments|
  {
    if fragments != [] {
      var fed, rest := Fed(st, fragments[0]), Concat(fragments[1..]);
      SplitFed(st, fragments);
      HeaderFitsPrefix(fed.data, rest);
      FedOnTrack(st, fragments[0]);
      NeverNestedFed(codec, fed, rest);
      RunInBlocks(codec, fed);
      if fragments[0] == [] { assert fed == st; }
      var e := Run(codec, Covering, fed);
      if e.Waiting? {
        RunFed(codec, fed, rest);
        RunStops(codec, Covering, fed);
        LaterEnd(codec, e.state, fragments[1..]);
      }
    }
  }

  /** Over the fragments of a body, the source ends as it should exactly if none of them ends at an exposed state. */
  lemma {:induction false} AsWrittenFragments(codec: Codec, st: State, fragments: seq<seq<byte>>)
    requires OnTrack(st) && st.error.None? && HeaderFits(st.data + Concat(fragments))
    requires NeverNested(codec, Fed(st, Concat(fragments)))
    ensures ParseAll(codec, AsWritten, st, fragments) == ParseAll(codec, Covering, st, fragments) <==>
      !MeetsExposed(codec, st, fragments)
    decreases |fragments|
  {
    if fragments != [] {
      var fed, rest := Fed(st, fragments[0]), Concat(fragments[1..]);
      SplitFed(st, fragments);
      HeaderFitsPrefix(fed.data, rest);
      FedOnTrack(st, fragments[0]);
      NeverNestedFed(codec, fed, rest);
      AsWrittenRun(codec, fed);
      NeverNestedIsClean(codec, fed);
      StaysClean(codec, fed);
      var e := Run(codec, Covering, fed);
      if e.Waiting? {
        RunFed(codec, fed, rest);
        RunStops(codec, Covering, fed);
        if Exposed(e.state) {
          LaterEnd(codec, e.state, fragments[1..]);
        } else {
          AsWrittenFragments(codec, e.state, fragments[1..]);
        }
      }
    }
  }

  // ----- where fragments end -----

  /** Where the `i`-th fragment ends. */
  function Cut(fragments: seq<seq<byte>>, i: nat): nat
    requires i <= |fragments|
  {
    |Concat(fragments[..i])|
  }

  lemma NextCut(fragments: seq<seq<byte>>, i: nat)
    requires 0 < i <= |fragments|
    ensures Cut(fragments, i) == |fragments[0]| + Cut(fragments[1..], i - 1)
  {
    assert fragments[..i][0] == fragments[0] && fragments[..i][1..] == fragments[1..][..i - 1];
  }

  /** Some fragment ends at such a place. */
  predicate SomeCut(p: nat -> bool, from: nat, fragments: seq<seq<byte>>)
    decreases |fragments|
  {
    fragments != [] && (p(from + |fragments[0]|) || SomeCut(p, from + |fragments[0]|, fragments[1..]))
  }

  lemma {:induction false} SomeCutWhere(p: nat -> bool, from: nat, fragments: seq<seq<byte>>)
    ensures SomeCut(p, from, fragments) <==> exists i | 0 < i <= |fragments| :: p(from + Cut(fragments, i))
    decreases |fragments|
  {
    if fragments != [] {
      var next := from + |fragments[0]|;
      SomeCutWhere(p, next, fragments[1..]);
      assert Cut(fragments[1..], 0) == 0;
      forall i | 0 < i <= |fragments|
        ensures from + Cut(fragments, i) == next + Cut(fragments[1..], i - 1)
      {
        NextCut(fragments, i);
      }
      if i :| 0 < i <= |fragments[1..]| && p(next + Cut(fragments[1..], i)) {
        assert p(from + Cut(fragments, i + 1));
      }
      if p(next) { assert p(from + Cut(fragments, 1)); }
    }
  }

  /** Given these bytes from the start, the decoder waits in an exposed state exactly if their number is one of those;
      and if it does not wait, it is beyond them. */
  ghost predicate ExposureKnown(codec: Codec, data: seq<byte>, p: nat -> bool) {
    HeaderFits(data) &&
    var e := Run(codec, Covering, START.(data := data));
    if e.Waiting? then e.state.error.None? && (Exposed(e.state) <==> p(|data|)) else forall c: nat | c >= |data| :: !p(c)
  }

  lemma {:induction false} NoCutBeyond(p: nat -> bool, from: nat, fragments: seq<seq<byte>>)
    requires forall c: nat | c >= from :: !p(c)
    ensures !SomeCut(p, from, fragments)
    decreases |fragments|
  {
    if fragments != [] { NoCutBeyond(p, from + |fragments[0]|, fragments[1..]); }
  }

  /** Then fragments meet an exposed state exactly if one of them ends at such a place. */
  lemma {:induction false} ExposedAtCuts(codec: Codec, st: State, fragments: seq<seq<byte>>, all: seq<byte>, p: nat -> bool)
    requires forall data | data <= all :: ExposureKnown(codec, data, p)
    requires OnTrack(st) && st.data + Concat(fragments) == all && Run(codec, Covering, START.(data := st.data)) == Waiting(st)
    ensures MeetsExposed(codec, st, fragments) <==> SomeCut(p, |st.data|, fragments)
    decreases |fragments|
  {
    if fragments != [] {
      var data, e := st.data + fragments[0], Parse(codec, Covering, st, fragments[0]);
      SplitFed(st, fragments);
      assert data <= all && ExposureKnown(codec, data, p);
      ContinuesDecoding(codec, st, fragments[0]);
      if e.Waiting? {
        ExposedAtCuts(codec, e.state, fragments[1..], all, p);
      } else {
        NoCutBeyond(p, |data|, fragments[1..]);
      }
    }
  }
}
