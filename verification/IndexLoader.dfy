/** The index as an object: one buffer for all keys, entries that point into it, and the loops that fill them. */
module IndexLoader {
  import opened Arithmetic
  import opened Bytes
  import opened Concatenation
  import opened IndexFormat
  import opened MemoryStreams

  datatype Entry = Entry(keyOffset: nat, size: nat, offset: nat)

  datatype Ending = SearchesForever | GivesUp | DividesByZero | Loads

  function Keys(records: seq<Record>): seq<byte> {
    if records == [] then [] else Keys(records[..|records| - 1]) + records[|records| - 1].key
  }

  function EntriesOf(records: seq<Record>): (entries: seq<Entry>) {
    seq(|records|, k requires 0 <= k < |records| => Entry(|Keys(records[..k])|, records[k].size, records[k].offset))
  }

  lemma KeysNext(records: seq<Record>, r: Record)
    ensures Keys(records + [r]) == Keys(records) + r.key
    ensures EntriesOf(records + [r]) == EntriesOf(records) + [Entry(|Keys(records)|, r.size, r.offset)]
  {
    var all := records + [r];
    assert all[..|records|] == records;
    forall k | 0 <= k < |records| ensures all[..k] == records[..k] {}
  }

  /** Keys lie one behind the other: where a key starts and how long it is give the key back. */
  lemma {:induction false} KeyAt(records: seq<Record>, k: nat)
    requires k < |records|
    ensures var at := |Keys(records[..k])|; var n := |records[k].key|;
      at + n <= |Keys(records)| && Keys(records)[at..at + n] == records[k].key
    decreases |records|
  {
    var front := records[..|records| - 1];
    if k < |front| {
      KeyAt(front, k);
      assert front[..k] == records[..k];
      var at, n := |Keys(records[..k])|, |records[k].key|;
      assert Keys(records)[at..at + n] == Keys(front)[at..at + n];
    }
  }

  /** Shifts the bytes into 64 bits, the first one highest. */
  method ReadNumber(bytes: seq<byte>) returns (v: nat)
    ensures v == BigEndian(bytes) % 0x1_0000_0000_0000_0000
  {
    v := 0;
    assert bytes[..0] == [];
    for i := 0 to |bytes|
      invariant v == BigEndian(bytes[..i]) % TWO_TO_64
    {
      assert bytes[..i + 1][..i] == bytes[..i];
      RemainderFirst(BigEndian(bytes[..i]), 256, bytes[i], TWO_TO_64);
      v := (v * 256 + bytes[i] as int) % TWO_TO_64;
    }
    assert bytes[..|bytes|] == bytes;
  }

  lemma SectionIs(l: Layout, data: seq<byte>, i: nat)
    requires l.In(data) && i < l.blocks
    ensures Sections(l, data)[i] == Section(BlockAt(l, data, i), HashAt(l, data, i))
  {
  }

  lemma BlockIs(l: Layout, data: seq<byte>, i: nat)
    requires l.In(data) && i < l.blocks
    ensures 0 <= i * l.blockSize && i * l.blockSize + l.blockSize <= |data|
    ensures BlockAt(l, data, i) == data[i * l.blockSize..i * l.blockSize + l.blockSize]
  {
    BlockFits(l, data, i);
  }

  lemma HashIs(l: Layout, data: seq<byte>, i: nat)
    requires l.In(data) && i < l.blocks
    ensures 0 <= i * l.checksum && l.HashesAt() + (i * l.checksum + l.checksum) <= |data|
    ensures HashAt(l, data, i) == data[l.HashesAt() + i * l.checksum..l.HashesAt() + (i * l.checksum + l.checksum)]
  {
    BlockFits(l, data, i);
  }

  /** A position before the start of the stream wraps to one far behind its end. */
  lemma WrappedSeek(n: nat, footerSize: nat)
    requires n + 44 < TWO_TO_64 && footerSize <= 44
    ensures (n - footerSize) % TWO_TO_64 == if footerSize <= n then n - footerSize else n - footerSize + TWO_TO_64
  {
  }

  /** The first loop.  Where the source's loop would go round without change for ever, this one says so. */
  method FindFooter(md5: Digest, hash: seq<byte>, stream: GrowableMemoryStream) returns (s: Search)
    requires |stream.data| + 44 < TWO_TO_64
    modifies stream`readCursor
    ensures s == if |stream.data| < 44 then Looking(LARGEST_CHECKSUM) else Answer(LargestMatch(md5, hash, stream.data, LARGEST_CHECKSUM))
    ensures s.Looking? ==> Turn(md5, hash, stream.data, s) == s
  {
    var n := |stream.data|;
    ghost var goal := LargestMatch(md5, hash, stream.data, LARGEST_CHECKSUM);
    var checksumSize := 0x10;
    while checksumSize > 0
      invariant checksumSize <= LARGEST_CHECKSUM && (n < 44 ==> checksumSize == LARGEST_CHECKSUM)
      invariant LargestMatch(md5, hash, stream.data, checksumSize) == goal
    {
      var footerSize := checksumSize * 2 + 8 + 4;
      WrappedSeek(n, footerSize);
      stream.SeekRead((n - footerSize) % TWO_TO_64);
      if !stream.CanRead(footerSize) { return Looking(checksumSize); }
      assert stream.readCursor == n - footerSize;
      var footer := stream.data[stream.readCursor..stream.readCursor + footerSize];
      assert footer == stream.data[n - FooterSize(checksumSize)..];
      if md5(footer) == hash { break; }
      checksumSize := checksumSize - 1;
    }
    s := Answer(checksumSize);
  }

  method ReadKey(l: Layout, stream: GrowableMemoryStream, ghost e: seq<byte>) returns (key: seq<byte>)
    requires stream.readCursor + l.EntrySize() <= |stream.data|
    requires e == stream.data[stream.readCursor..stream.readCursor + l.EntrySize()]
    modifies stream`readCursor
    ensures key == Decode(l, e).key && |key| == l.keyBytes && stream.readCursor == old(stream.readCursor) + l.keyBytes
  {
    key := stream.data[stream.readCursor..stream.readCursor + l.keyBytes];
    assert key == e[..l.keyBytes];
    stream.SkipRead(l.keyBytes);
  }

  /** The two numbers, as parts of the bytes that are read and of the entry. */
  lemma NumberParts(data: seq<byte>, at: nat, key: nat, size: nat, offset: nat)
    requires at + key + size + offset <= |data|
    ensures var e, numbers := data[at..at + (key + size + offset)], data[at + key..at + key + (size + offset)];
      numbers[..size] == e[key..key + size] && numbers[size..] == e[key + size..]
  {
    var end := at + (key + size + offset);
    SliceOfSlice(data, at, end, key, key + size);
    SliceOfSlice(data, at, end, key + size, key + size + offset);
    SliceOfSlice(data, at + key, end, 0, size);
    SliceOfSlice(data, at + key, end, size, size + offset);
  }

  /** The numbers of an entry, behind its key. */
  method ReadNumbers(l: Layout, stream: GrowableMemoryStream, ghost e: seq<byte>, ghost at: nat) returns (size: nat, offset: nat)
    requires at + l.EntrySize() <= |stream.data| && e == stream.data[at..at + l.EntrySize()]
    requires stream.readCursor == at + l.keyBytes
    modifies stream`readCursor
    ensures size == Decode(l, e).size && offset == Decode(l, e).offset
  {
    var dataBytes := stream.data[stream.readCursor..stream.readCursor + (l.sizeBytes + l.offsetBytes)];
    stream.SkipRead(l.sizeBytes + l.offsetBytes);
    NumberParts(stream.data, at, l.keyBytes, l.sizeBytes, l.offsetBytes);
    size := ReadNumber(dataBytes[..l.sizeBytes]);
    offset := ReadNumber(dataBytes[l.sizeBytes..]);
  }

  /** Goes to an entry of the block that starts at `start`. */
  method SeekEntry(l: Layout, stream: GrowableMemoryStream, start: nat, j: nat)
    requires l.EntrySize() > 0 && start + l.blockSize <= |stream.data| && j < l.PerBlock()
    modifies stream`readCursor
    ensures stream.readCursor + l.EntrySize() <= |stream.data|
    ensures stream.data[stream.readCursor..stream.readCursor + l.EntrySize()]
         == Cells(l, stream.data[start..start + l.blockSize])[j]
  {
    EntryFits(l, j);
    var within := j * l.EntrySize();
    SliceOfSlice(stream.data, start, start + l.blockSize, within, within + l.EntrySize());
    stream.SeekRead(start + within);
  }

  class ArchiveIndex {
    var keySizeBytes: nat
    var keyBuffer: seq<byte>
    var entries: seq<Entry>
    ghost var records: seq<Record>

    ghost predicate Valid()
      reads this
    {
      && keyBuffer == Keys(records) && entries == EntriesOf(records)
      && forall r | r in records :: |r.key| == keySizeBytes
    }

    constructor ()
      ensures Valid() && records == [] && keySizeBytes == 0
    {
      keySizeBytes, keyBuffer, entries, records := 0, [], [], [];
    }

    method Add(key: seq<byte>, size: nat, offset: nat)
      requires Valid() && |key| == keySizeBytes
      modifies this
      ensures Valid() && keySizeBytes == old(keySizeBytes)
      ensures records == old(records) + [Record(key, size, offset)]
    {
      KeysNext(records, Record(key, size, offset));
      var keyOffset := |keyBuffer|;
      keyBuffer := keyBuffer + key;
      entries := entries + [Entry(keyOffset, size, offset)];
      records := records + [Record(key, size, offset)];
    }

    /** Reads the entry at the cursor: the key goes to the buffer, the numbers to a new entry, unless the key is zero. */
    method LoadEntry(l: Layout, stream: GrowableMemoryStream, ghost e: seq<byte>)
      requires Valid() && keySizeBytes == l.keyBytes && stream.readCursor + l.EntrySize() <= |stream.data|
      requires e == stream.data[stream.readCursor..stream.readCursor + l.EntrySize()]
      modifies this, stream`readCursor
      ensures Valid() && keySizeBytes == l.keyBytes
      ensures records == old(records) + IfUsed(Decode(l, e))
    {
      ghost var at := stream.readCursor;
      var key := ReadKey(l, stream, e);
      if AllZero(key) {
        assert records == records + [];
      } else {
        var size, offset := ReadNumbers(l, stream, e, at);
        Add(key, size, offset);
      }
    }

    method LoadCell(l: Layout, stream: GrowableMemoryStream, start: nat, j: nat, ghost cells: seq<seq<byte>>)
      requires Valid() && keySizeBytes == l.keyBytes && l.EntrySize() > 0 && j < l.PerBlock()
      requires start + l.blockSize <= |stream.data| && cells == Cells(l, stream.data[start..start + l.blockSize])
      modifies this, stream`readCursor
      ensures Valid() && keySizeBytes == l.keyBytes
      ensures records == old(records) + IfUsed(Decode(l, cells[j]))
    {
      SeekEntry(l, stream, start, j);
      LoadEntry(l, stream, cells[j]);
    }

    method LoadBlock(l: Layout, stream: GrowableMemoryStream, start: nat, ghost block: seq<byte>)
      requires Valid() && keySizeBytes == l.keyBytes && l.EntrySize() > 0
      requires start + l.blockSize <= |stream.data| && block == stream.data[start..start + l.blockSize]
      modifies this, stream`readCursor
      ensures Valid() && keySizeBytes == l.keyBytes
      ensures records == old(records) + Used(l, Cells(l, block))
    {
      var entryCount := l.blockSize / l.EntrySize();
      ghost var cells := Cells(l, block);
      ghost var before, used := records, [];
      assert Used(l, cells[..0]) == [];
      for j := 0 to entryCount
        invariant Valid() && keySizeBytes == l.keyBytes
        invariant used == Used(l, cells[..j]) && records == before + used
      {
        UsedNext(l, cells, j);
        LoadCell(l, stream, start, j, cells);
        Associates(before, used, IfUsed(Decode(l, cells[j])));
        used := used + IfUsed(Decode(l, cells[j]));
      }
      assert cells[..entryCount] == cells;
    }

    /** The two reads, each behind its seek. */
    method ReadBlockAndHash(stream: GrowableMemoryStream, start: nat, blockSize: nat, hashAt: nat, checksumSize: nat) returns (s: Section)
      requires start + blockSize <= |stream.data| && hashAt + checksumSize <= |stream.data|
      modifies stream`readCursor
      ensures s == Section(stream.data[start..start + blockSize], stream.data[hashAt..hashAt + checksumSize])
    {
      stream.SeekRead(start);
      var rawBlockData := stream.data[stream.readCursor..stream.readCursor + blockSize];
      stream.SeekRead(hashAt);
      var checksum := stream.data[stream.readCursor..stream.readCursor + checksumSize];
      s := Section(rawBlockData, checksum);
    }

    /** A block and the hash that the table of contents has for it. */
    method ReadSection(l: Layout, stream: GrowableMemoryStream, i: nat) returns (start: nat, s: Section)
      requires l.In(stream.data) && i < l.blocks
      modifies stream`readCursor
      ensures s == Sections(l, stream.data)[i]
      ensures start + l.blockSize <= |stream.data| && s.block == stream.data[start..start + l.blockSize]
    {
      SectionIs(l, stream.data, i);
      BlockIs(l, stream.data, i);
      HashIs(l, stream.data, i);
      start := i * l.blockSize;
      s := ReadBlockAndHash(stream, start, l.blockSize, l.HashesAt() + i * l.checksum, l.checksum);
    }

    /** Both loops: blocks whose hash is not the one in the table of contents are passed over. */
    method LoadBlocks(md5: Digest, l: Layout, stream: GrowableMemoryStream)
      requires Valid() && keySizeBytes == l.keyBytes && records == [] && IsDigest(md5) && l.In(stream.data)
      modifies this, stream`readCursor
      ensures Valid() && keySizeBytes == l.keyBytes
      ensures records == Records(md5, l, Sections(l, stream.data))
    {
      ghost var sections := Sections(l, stream.data);
      assert sections[..0] == [];
      for i := 0 to l.blocks
        invariant Valid() && keySizeBytes == l.keyBytes
        invariant records == Records(md5, l, sections[..i])
      {
        RecordsNext(md5, l, sections, i);
        var start, s := ReadSection(l, stream, i);
        if md5(s.block)[..l.checksum] == s.hash {
          LoadBlock(l, stream, start, s.block);
        }
      }
      assert sections[..l.blocks] == sections;
    }

    /** The fields of the footer behind the hash of the table of contents. */
    method ReadFooter(stream: GrowableMemoryStream, checksumSize: nat) returns (l: Layout)
      requires 0 < checksumSize <= LARGEST_CHECKSUM && FooterSize(checksumSize) <= |stream.data|
      modifies stream`readCursor
      ensures l == LayoutOf(stream.data, checksumSize)
    {
      var footerSize := checksumSize * 2 + 8 + 4;
      stream.SeekRead(|stream.data| - footerSize);
      stream.SkipRead(checksumSize);
      var version := stream.ReadU8();
      var v11 := stream.ReadU8();
      var v12 := stream.ReadU8();
      var blockSizeKb := stream.ReadU8();
      var offsetBytes := stream.ReadU8();
      var sizeBytes := stream.ReadU8();
      var keyBytes := stream.ReadU8();
      l := Describe(|stream.data| - footerSize, checksumSize, blockSizeKb, offsetBytes, sizeBytes, keyBytes);
    }

    /** The constructor of the source: the four ways it can go, and what is in the index when it ends. */
    method Load(md5: Digest, hash: seq<byte>, stream: GrowableMemoryStream) returns (ending: Ending)
      requires Valid() && records == [] && IsDigest(md5) && |stream.data| + 44 < TWO_TO_64
      modifies this, stream`readCursor
      ensures match Parse(md5, hash, stream.data)
        case Stuck => ending == SearchesForever
        case Unrecognised => ending == GivesUp && records == []
        case Undefined => ending == DividesByZero
        case Index(keyBytes, all) => ending == Loads && keySizeBytes == keyBytes && records == all
      ensures Valid()
    {
      var search := FindFooter(md5, hash, stream);
      if search.Looking? { return SearchesForever; }
      if search.NotFound? { return GivesUp; }
      var l := ReadFooter(stream, search.checksum);
      keySizeBytes := l.keyBytes;
      if l.EntrySize() == 0 { return DividesByZero; }
      LayoutFits(stream.data, search.checksum);
      LoadBlocks(md5, l, stream);
      ending := Loads;
    }

    function Key(entry: Entry): seq<byte>
      requires entry.keyOffset + keySizeBytes <= |keyBuffer|
      reads this
    {
      keyBuffer[entry.keyOffset..entry.keyOffset + keySizeBytes]
    }

    /** `operator[]`: the first entry with the key. */
    method Find(key: seq<byte>) returns (found: Option<Entry>)
      requires Valid()
      ensures match found
        case None => forall r | r in records :: r.key != key
        case Some(entry) => exists k: nat | k < |records| ::
          && records[k].key == key && entry.size == records[k].size && entry.offset == records[k].offset
          && forall earlier | 0 <= earlier < k :: records[earlier].key != key
    {
      for k := 0 to |entries|
        invariant forall earlier | 0 <= earlier < k :: records[earlier].key != key
      {
        KeyAt(records, k);
        assert records[k] in records;
        if Key(entries[k]) == key { return Some(entries[k]); }
      }
      found := None;
    }
  }
}
