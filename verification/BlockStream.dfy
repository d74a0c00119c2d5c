/** The incremental decoder of block-table encoded streams, as a function of what it has been fed. */
module BlockStream {
  import opened Bytes
  import opened MemoryStreams

  /** Foreign code: the digest of a span, and what inflating a span hands to the output and whether it succeeds. */
  datatype Codec = Codec(digest: seq<byte> -> seq<byte>, inflate: seq<byte> -> Inflated)

  datatype Inflated = Inflated(output: seq<byte>, ok: bool)

  /** The loop around the foreign code: it does not run for an empty input. */
  function Inflate(codec: Codec, payload: seq<byte>): Inflated {
    if payload == [] then Inflated([], true) else codec.inflate(payload)
  }

  datatype Error = BodyLimit | NeedMore | BadAlloc | UnexpectedBody

  datatype Chunk = Chunk(compressedSize: nat, decompressedSize: nat, checksum: seq<byte>)

  /** How many bytes the decoder waits for before it takes a block of `compressedSize` bytes plus its mode byte.
      The source waits for `compressedSize`, one byte less than it goes on to use. */
  datatype Guard = AsWritten | Covering

  function Awaited(guard: Guard, chunk: Chunk): nat {
    match guard
    case AsWritten => chunk.compressedSize
    case Covering => chunk.compressedSize + 1
  }

  const SIGNATURE: nat := 0x45544c42
  const HEADER: nat := 0
  const CHUNK_HEADERS: nat := 1
  const DATA_BLOCKS: nat := 2

  const MODE_PLAIN: byte := 78    // 'N'
  const MODE_DEFLATED: byte := 90 // 'Z'
  const MODE_NESTED: byte := 70   // 'F'

  /** The fields of the decoder, what it handed to its output handler, and the error code it shares with its caller. */
  datatype State = State(data: seq<byte>, cursor: nat, step: nat, headerSize: nat, chunks: seq<Chunk>,
                         output: seq<byte>, error: Option<Error>)

  const START := State([], 0, HEADER, 0, [], [], None)

  /** One turn of the loop: wait for more, go on, give up, or touch bytes that are not there. */
  datatype Move = Wait | Next(state: State) | Fail(state: State) | Fault

  /** How the loop ends. */
  datatype Ending = Waiting(state: State) | Failed(state: State) | Faulted

  function Le32(data: seq<byte>, at: nat): nat
    requires at + 4 <= |data|
  {
    data[at] as int + 256 * (data[at + 1] as int + 256 * (data[at + 2] as int + 256 * (data[at + 3] as int)))
  }

  /** `Read<uint32_t>() - 1` in 32 bits. */
  function LessOne(wire: nat): (size: nat) {
    if wire == 0 then TWO_TO_32 - 1 else wire - 1
  }

  /** A digest of which only some bytes arrived keeps zeros for the others. */
  function PeekDigest(data: seq<byte>, cursor: nat): seq<byte>
    requires cursor <= |data|
  {
    var n := Taken(data, cursor, 16);
    data[cursor..cursor + n] + Zeros(16 - n)
  }

  /** One entry of the table and where the next one starts, or nothing when a size is cut short. */
  function PeekChunk(data: seq<byte>, cursor: nat): (r: Option<(Chunk, nat)>)
    requires cursor <= |data|
    ensures r.Some? ==> cursor <= r.value.1 <= |data|
  {
    var sizes := cursor + Taken(data, cursor, 4);
    var checksum := sizes + Taken(data, sizes, 4);
    match (PeekBe32(data, cursor), PeekBe32(data, sizes))
    case (Value32(wire), Value32(size)) =>
      Some((Chunk(LessOne(wire), size, PeekDigest(data, checksum)), checksum + Taken(data, checksum, 16)))
    case _ => None
  }

  /** The table of `n` blocks. */
  function ReadTable(data: seq<byte>, cursor: nat, n: nat): (r: Option<(seq<Chunk>, nat)>)
    requires cursor <= |data|
    ensures r.Some? ==> |r.value.0| == n && cursor <= r.value.1 <= |data|
    decreases n
  {
    if n == 0 then Some(([], cursor))
    else
      match PeekChunk(data, cursor)
      case None => None
      case Some((chunk, next)) =>
        match ReadTable(data, next, n - 1)
        case None => None
        case Some((rest, end)) => Some(([chunk] + rest, end))
  }

  function ReadHeader(st: State): Move
    requires st.cursor <= |st.data|
  {
    if st.cursor + 8 > |st.data| then Wait
    else if Le32(st.data, st.cursor) != SIGNATURE then Fail(st.(cursor := st.cursor + 4, error := Some(BodyLimit)))
    else Next(st.(cursor := st.cursor + 8, headerSize := Be32(st.data, st.cursor + 4), step := CHUNK_HEADERS))
  }

  function ReadChunkHeaders(st: State): Move
    requires st.cursor <= |st.data|
  {
    if st.cursor + st.headerSize > |st.data| then Wait
    else
      match PeekBe32(st.data, st.cursor)
      case Undefined32 => Fault
      case Value32(word) =>
        var table := st.cursor + Taken(st.data, st.cursor, 4);
        if word / 0x100_0000 != 0xF || word % 0x100_0000 == 0 then
          Fail(st.(cursor := table, error := Some(NeedMore)))
        else
          match ReadTable(st.data, table, word % 0x100_0000)
          case None => Fault
          case Some((chunks, end)) => Next(st.(cursor := end, chunks := chunks, step := DATA_BLOCKS))
  }

  /** The measure of the loop: what is fed, then the steps before the blocks, then what is left to read. */
  function StepsLeft(st: State): nat {
    if st.step >= DATA_BLOCKS then 0 else DATA_BLOCKS - st.step
  }

  function ReadBlock(codec: Codec, guard: Guard, st: State): (m: Move)
    requires st.cursor <= |st.data| && st.step >= DATA_BLOCKS
    ensures m.Next? ==> m.state.data == st.data && st.cursor < m.state.cursor <= |st.data| && m.state.step == st.step + 1
    ensures m.Fail? || (m.Next? && st.error.Some?) ==> m.state.error.Some?
    decreases |st.data|, 1
  {
    if st.step - DATA_BLOCKS >= |st.chunks| then Wait
    else
      var chunk := st.chunks[st.step - DATA_BLOCKS];
      var size := chunk.compressedSize;
      if st.cursor + Awaited(guard, chunk) > |st.data| then Wait
      else if codec.digest(st.data[st.cursor..st.cursor + size]) != chunk.checksum then
        Fail(st.(error := Some(BodyLimit)))
      else if st.cursor == |st.data| then
        Fail(st.(error := Some(UnexpectedBody)))   // no mode byte: it reads as zero
      else
        Unpack(codec, guard, st.(cursor := st.cursor + 1), st.data[st.cursor], size)
  }

  /** After the mode byte: `size` bytes in the mode's encoding. */
  function Unpack(codec: Codec, guard: Guard, st: State, mode: byte, size: nat): (m: Move)
    requires 0 < st.cursor <= |st.data|
    ensures m.Next? ==> m.state.data == st.data && st.cursor <= m.state.cursor <= |st.data| && m.state.step == st.step + 1
    ensures m.Fail? || (m.Next? && st.error.Some?) ==> m.state.error.Some?
    decreases |st.data|, 0
  {
    if mode !in {MODE_PLAIN, MODE_DEFLATED, MODE_NESTED} then Fail(st.(error := Some(UnexpectedBody)))
    else if st.cursor + size > |st.data| then Fault
    else
      var payload := st.data[st.cursor..st.cursor + size];
      var done := st.(cursor := st.cursor + size, step := st.step + 1);
      if mode == MODE_PLAIN then Next(done.(output := st.output + payload))
      else if mode == MODE_DEFLATED then
        var inflated := Inflate(codec, payload);
        if inflated.ok then Next(done.(output := st.output + inflated.output))
        else Fail(st.(output := st.output + inflated.output, error := Some(BadAlloc)))
      else
        // a nested stream: its output goes to the same handler, and its error does not stop the loop
        match Run(codec, guard, START.(data := payload))
        case Faulted => Fault
        case Waiting(nested) =>
          Next(done.(output := st.output + nested.output,
                     error := if nested.error.Some? then nested.error else st.error))
        case Failed(nested) => Next(done.(output := st.output + nested.output, error := nested.error))
  }

  function Advance(codec: Codec, guard: Guard, st: State): (m: Move)
    requires st.cursor <= |st.data|
    ensures m.Next? ==> m.state.data == st.data && st.cursor <= m.state.cursor <= |st.data|
    ensures m.Next? && StepsLeft(m.state) >= StepsLeft(st) ==> StepsLeft(m.state) == StepsLeft(st) && st.cursor < m.state.cursor
    ensures m.Fail? || (m.Next? && st.error.Some?) ==> m.state.error.Some?
    decreases |st.data|, 2
  {
    if st.step == HEADER then ReadHeader(st)
    else if st.step == CHUNK_HEADERS then ReadChunkHeaders(st)
    else ReadBlock(codec, guard, st)
  }

  function Run(codec: Codec, guard: Guard, st: State): (e: Ending)
    requires st.cursor <= |st.data|
    ensures e.Waiting? ==> e.state.data == st.data && e.state.cursor <= |st.data|
    ensures e.Failed? ==> e.state.error.Some?
    decreases |st.data|, 3, StepsLeft(st), |st.data| - st.cursor
  {
    match Advance(codec, guard, st)
    case Wait => Waiting(st)
    case Fail(failed) => Failed(failed)
    case Fault => Faulted
    case Next(next) => Run(codec, guard, next)
  }

  function Fed(st: State, bytes: seq<byte>): State {
    st.(data := st.data + bytes)
  }

  /** `Parse`: append, then run. */
  function Parse(codec: Codec, guard: Guard, st: State, bytes: seq<byte>): Ending
    requires st.cursor <= |st.data|
  {
    Run(codec, guard, Fed(st, bytes))
  }

  /** The caller's loop over the fragments of a body: it stops at the first error. */
  function ParseAll(codec: Codec, guard: Guard, st: State, fragments: seq<seq<byte>>): (e: Ending)
    requires st.cursor <= |st.data|
    decreases |fragments|
  {
    if fragments == [] then Waiting(st)
    else
      match Parse(codec, guard, st, fragments[0])
      case Waiting(next) => if next.error.Some? then Waiting(next) else ParseAll(codec, guard, next, fragments[1..])
      case end => end
  }

  function Concat(fragments: seq<seq<byte>>): seq<byte> {
    if fragments == [] then [] else fragments[0] + Concat(fragments[1..])
  }
}
