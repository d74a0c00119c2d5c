/** The decoder as an object: fields updated in place, a growable stream, and a loop that runs until it has to wait. */
module BlockStreamTransform {
  import opened Bytes
  import opened MemoryStreams
  import opened BlockStream

  datatype Signal = Return | Continue | Undefined

  const NO_CHUNK := Chunk(0, 0, Zeros(16))

  /** The table read so far, and what the rest of it would read, make the whole. */
  ghost predicate Completes(whole: Option<(seq<Chunk>, nat)>, done: seq<Chunk>, rest: Option<(seq<Chunk>, nat)>) {
    match rest
    case None => whole.None?
    case Some((chunks, end)) => whole == Some((done + chunks, end))
  }

  lemma CompletesNext(whole: Option<(seq<Chunk>, nat)>, done: seq<Chunk>, data: seq<byte>, at: nat, n: nat, chunk: Chunk, next: nat)
    requires at <= |data| && n > 0 && Completes(whole, done, ReadTable(data, at, n))
    requires PeekChunk(data, at) == Some((chunk, next))
    ensures Completes(whole, done + [chunk], ReadTable(data, next, n - 1))
  {
    var rest := ReadTable(data, next, n - 1);
    if rest.Some? { assert done + ([chunk] + rest.value.0) == (done + [chunk]) + rest.value.0; }
  }

  class Transform {
    const codec: Codec
    const guard: Guard
    const ms: GrowableMemoryStream
    var step: nat
    var headerSize: nat
    var chunks: seq<Chunk>
    var output: seq<byte>       // what the output handler was called with
    var error: Option<Error>    // the error code shared with the caller

    ghost predicate Valid()
      reads this, ms
    {
      ms.readCursor <= |ms.data| && ms.writeCursor == |ms.data|
    }

    ghost function View(): State
      reads this, ms
    {
      State(ms.data, ms.readCursor, step, headerSize, chunks, output, error)
    }

    constructor (codec: Codec, guard: Guard)
      ensures Valid() && View() == START && this.codec == codec && this.guard == guard && fresh(ms)
    {
      this.codec := codec;
      this.guard := guard;
      ms := new GrowableMemoryStream();
      step, headerSize, chunks, output, error := HEADER, 0, [], [], None;
    }

    /** Does one turn of the loop do what the specification says? */
    ghost predicate Does(m: Move, before: State, signal: Signal)
      reads this, ms
    {
      match m
      case Wait => signal == Return && View() == before
      case Next(next) => signal == Continue && View() == next
      case Fail(failed) => signal == Return && View() == failed
      case Fault => signal == Undefined
    }

    method TakeHeader() returns (signal: Signal)
      requires Valid() && step == HEADER
      modifies this, ms`readCursor
      ensures Does(ReadHeader(old(View())), old(View()), signal)
      ensures !signal.Undefined? ==> Valid()
    {
      if !ms.CanRead(8) { return Return; }
      ghost var at := ms.readCursor;
      var signature := ms.ReadBytes(4);
      assert Le32(signature, 0) == Le32(ms.data, at);
      if Le32(signature, 0) != SIGNATURE {
        error := Some(BodyLimit);
        return Return;
      }
      var size := ms.ReadBe32();
      headerSize := size.value;
      step := CHUNK_HEADERS;
      signal := Continue;
    }

    method TakeChunkHeaders() returns (signal: Signal)
      requires Valid() && step == CHUNK_HEADERS
      modifies this, ms`readCursor
      ensures Does(ReadChunkHeaders(old(View())), old(View()), signal)
      ensures !signal.Undefined? ==> Valid()
    {
      ghost var move := ReadChunkHeaders(View());
      if !ms.CanRead(headerSize) {
        assert move == Wait;
        return Return;
      }
      var word := ms.ReadBe32();
      if word.Undefined32? { return Undefined; }
      var flags, chunkCount := word.value / 0x100_0000, word.value % 0x100_0000;
      if flags != 0xF || chunkCount == 0 {
        error := Some(NeedMore);
        return Return;
      }
      var undefined := ReadEntries(chunkCount);
      if undefined { return Undefined; }
      step := DATA_BLOCKS;
      signal := Continue;
    }

    /** Makes room for the table and fills it entry by entry. */
    method ReadEntries(chunkCount: nat) returns (undefined: bool)
      requires Valid()
      modifies this`chunks, ms`readCursor
      ensures Valid()
      ensures match ReadTable(ms.data, old(ms.readCursor), chunkCount)
        case None => undefined
        case Some((table, end)) => !undefined && chunks == table && ms.readCursor == end
    {
      ghost var whole := ReadTable(ms.data, ms.readCursor, chunkCount);
      chunks := seq(chunkCount, i => NO_CHUNK);
      if whole.Some? { assert chunks[..0] + whole.value.0 == whole.value.0; }
      for i := 0 to chunkCount
        invariant Valid() && |chunks| == chunkCount
        invariant Completes(whole, chunks[..i], ReadTable(ms.data, ms.readCursor, chunkCount - i))
      {
        undefined := FillEntry(i, chunkCount - i, whole);
        if undefined { return; }
      }
      assert chunks[..chunkCount] + [] == chunks;
      undefined := false;
    }

    /** One turn of the loop over the table. */
    method FillEntry(i: nat, left: nat, ghost whole: Option<(seq<Chunk>, nat)>) returns (undefined: bool)
      requires Valid() && left > 0 && i + left == |chunks|
      requires Completes(whole, chunks[..i], ReadTable(ms.data, ms.readCursor, left))
      modifies this`chunks, ms`readCursor
      ensures Valid() && |chunks| == i + left
      ensures undefined ==> whole.None?
      ensures !undefined ==> Completes(whole, chunks[..i + 1], ReadTable(ms.data, ms.readCursor, left - 1))
    {
      ghost var done, at := chunks[..i], ms.readCursor;
      var chunk := ReadEntry();
      if chunk.None? { return true; }
      CompletesNext(whole, done, ms.data, at, left, chunk.value, ms.readCursor);
      chunks := chunks[i := chunk.value];
      assert chunks[..i + 1] == done + [chunk.value];
      undefined := false;
    }

    method ReadEntry() returns (chunk: Option<Chunk>)
      requires Valid()
      modifies ms`readCursor
      ensures Valid()
      ensures match PeekChunk(ms.data, old(ms.readCursor))
        case None => chunk.None?
        case Some((c, next)) => chunk == Some(c) && ms.readCursor == next
    {
      var wire := ms.ReadBe32();
      if wire.Undefined32? { return None; }
      var size := ms.ReadBe32();
      if size.Undefined32? { return None; }
      var checksum := ms.ReadBytes(16);
      chunk := Some(Chunk(LessOne(wire.value), size.value, checksum + Zeros(16 - |checksum|)));
    }

    method TakeBlock() returns (signal: Signal)
      requires Valid() && step >= DATA_BLOCKS
      modifies this, ms`readCursor
      ensures Does(ReadBlock(codec, guard, old(View())), old(View()), signal)
      ensures !signal.Undefined? ==> Valid()
      decreases |ms.data|, 1
    {
      ghost var before, move := View(), ReadBlock(codec, guard, View());
      if step - DATA_BLOCKS >= |chunks| {
        assert move == Wait;
        return Return;
      }
      var chunk := chunks[step - DATA_BLOCKS];
      var size := chunk.compressedSize;
      if !ms.CanRead(Awaited(guard, chunk)) { return Return; }
      if codec.digest(ms.data[ms.readCursor..ms.readCursor + size]) != chunk.checksum {
        error := Some(BodyLimit);
        return Return;
      }
      var mode := ms.ReadBytes(1);
      if |mode| == 0 {
        // nothing was read, so the mode is zero, which is none of the modes
        error := Some(UnexpectedBody);
        return Return;
      }
      assert move == Unpack(codec, guard, before.(cursor := before.cursor + 1), mode[0], size);
      signal := Deliver(mode[0], size);
    }

    method Deliver(encodingMode: byte, size: nat) returns (signal: Signal)
      requires Valid() && 0 < ms.readCursor
      modifies this, ms`readCursor
      ensures Does(Unpack(codec, guard, old(View()), encodingMode, size), old(View()), signal)
      ensures !signal.Undefined? ==> Valid()
      decreases |ms.data|, 0
    {
      if encodingMode !in {MODE_PLAIN, MODE_DEFLATED, MODE_NESTED} {
        error := Some(UnexpectedBody);
        return Return;
      }
      if ms.readCursor + size > |ms.data| { return Undefined; }
      var payload := ms.data[ms.readCursor..ms.readCursor + size];
      if encodingMode == MODE_PLAIN {
        output := output + payload;
      } else if encodingMode == MODE_DEFLATED {
        var inflated := Inflate(codec, payload);
        output := output + inflated.output;
        if !inflated.ok {
          error := Some(BadAlloc);
          return Return;
        }
      } else {
        var nested := new Transform(codec, guard);
        assert START.data + payload == payload;
        var undefined := nested.Parse(payload);
        if undefined { return Undefined; }
        output := output + nested.output;
        if nested.error.Some? { error := nested.error; }
      }
      ms.SkipRead(size);
      step := step + 1;
      signal := Continue;
    }

    /** Appends what arrived and decodes what it can.  Undefined means that the source would read bytes that are not
        there. */
    method Parse(data: seq<byte>) returns (undefined: bool)
      requires Valid()
      modifies this, ms
      ensures undefined <==> BlockStream.Parse(codec, guard, old(View()), data).Faulted?
      ensures !undefined ==> Valid() && View() == BlockStream.Parse(codec, guard, old(View()), data).state
      decreases |ms.data| + |data|, 2
    {
      ms.Write(data);
      assert ms.data == old(ms.data) + data;
      ghost var fed := View();
      while true
        invariant Valid() && ms.data == old(ms.data) + data
        invariant Run(codec, guard, View()) == Run(codec, guard, fed)
        decreases StepsLeft(View()), |ms.data| - ms.readCursor
      {
        var signal: Signal;
        if step == HEADER {
          signal := TakeHeader();
        } else if step == CHUNK_HEADERS {
          signal := TakeChunkHeaders();
        } else {
          signal := TakeBlock();
        }
        if signal.Undefined? { return true; }
        if signal.Return? { return false; }
      }
    }
  }
}
