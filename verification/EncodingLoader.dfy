/** The manifest as an object, filled by a cursor that goes to each page and back to the table of contents. */
module EncodingLoader {
  import opened Bytes
  import opened EncodingFormat
  import opened MemoryStreams

  method ReadU16(stream: GrowableMemoryStream) returns (v: nat)
    requires stream.readCursor + 2 <= |stream.data|
    modifies stream`readCursor
    ensures v == Be16(stream.data, old(stream.readCursor)) && stream.readCursor == old(stream.readCursor) + 2
  {
    var bytes := stream.ReadBytes(2);
    v := bytes[0] as int * 256 + bytes[1] as int;
  }

  method ReadU32(stream: GrowableMemoryStream) returns (v: nat)
    requires stream.readCursor + 4 <= |stream.data|
    modifies stream`readCursor
    ensures v == Be32(stream.data, old(stream.readCursor)) && stream.readCursor == old(stream.readCursor) + 4
  {
    var r := stream.ReadBe32();
    v := r.value;
  }

  /** `ReadUInt40`: nothing when the bytes are not all there. */
  method ReadUInt40(stream: GrowableMemoryStream) returns (v: Option<nat>)
    requires stream.readCursor <= |stream.data|
    modifies stream`readCursor
    ensures stream.readCursor == Behind(stream.data, old(stream.readCursor), 5)
    ensures var at := old(stream.readCursor);
      v == if at + 5 <= |stream.data| then Some(BigEndian(stream.data[at..at + 5])) else None
  {
    var bytes := stream.ReadBytes(5);
    if |bytes| < 5 { return None; }
    var value := 0;
    assert bytes[..0] == [];
    for i := 0 to 5
      invariant value == BigEndian(bytes[..i])
    {
      assert bytes[..i + 1][..i] == bytes[..i];
      value := value * 256 + bytes[i] as int;
    }
    assert bytes[..5] == bytes;
    v := Some(value);
  }

  /** Reads into a vector of `n` zeros. */
  method ReadVector(stream: GrowableMemoryStream, n: nat) returns (bytes: seq<byte>)
    requires stream.readCursor <= |stream.data|
    modifies stream`readCursor
    ensures bytes == Filled(stream.data, old(stream.readCursor), n)
    ensures stream.readCursor == Behind(stream.data, old(stream.readCursor), n)
  {
    var read := stream.ReadBytes(n);
    bytes := read + Zeros(n - |read|);
  }

  method TakeHeader(stream: GrowableMemoryStream) returns (h: Header)
    requires stream.readCursor <= |stream.data|
    modifies stream`readCursor
    ensures h == ReadHeader(stream.data, old(stream.readCursor))
    ensures stream.readCursor == old(stream.readCursor) + if old(stream.CanRead(HEADER_SIZE)) then HEADER_SIZE else 0
  {
    if !stream.CanRead(2 + 1 + 1 + 1 + 2 + 2 + 4 + 4 + 1 + 4) { return NO_HEADER; }
    var signature := ReadU16(stream);
    var version := stream.ReadU8();
    var encodingKeySize := stream.ReadU8();
    var contentKeySize := stream.ReadU8();
    var pageSize := ReadU16(stream);
    var specPageSize := ReadU16(stream);
    var pageCount := ReadU32(stream);
    var specPageCount := ReadU32(stream);
    var unknown := stream.ReadU8();
    var specBlockSize := ReadU32(stream);
    h := Header(signature, version, encodingKeySize, contentKeySize, pageSize * 1024, pageCount,
                specPageSize * 1024, specPageCount, specBlockSize);
  }

  method TakeEntry(h: Header, stream: GrowableMemoryStream) returns (e: Entry)
    requires stream.readCursor <= |stream.data|
    modifies stream`readCursor
    ensures (e, stream.readCursor) == ReadEntry(h, stream.data, old(stream.readCursor))
  {
    var keyCount := stream.ReadU8();
    var fileSize := ReadUInt40(stream);
    var ckey := ReadVector(stream, h.contentKeySize);
    var ekeys := [];
    if keyCount as int * h.encodingKeySize > 0 {
      ekeys := ReadVector(stream, keyCount as int * h.encodingKeySize);
    }
    e := Entry(keyCount, fileSize, ckey, ekeys);
  }

  /** The loop over the entries of a page. */
  method TakeEntries(h: Header, stream: GrowableMemoryStream, pageEnd: nat) returns (entries: seq<Entry>)
    requires stream.readCursor <= |stream.data|
    modifies stream`readCursor
    ensures entries == ReadPage(h, stream.data, old(stream.readCursor), pageEnd)
  {
    entries := [];
    ghost var all := ReadPage(h, stream.data, stream.readCursor, pageEnd);
    ghost var left := all;
    while stream.readCursor < pageEnd
      invariant stream.readCursor <= |stream.data|
      invariant left == ReadPage(h, stream.data, stream.readCursor, pageEnd) && all == entries + left
      decreases |stream.data| - stream.readCursor
    {
      ghost var at := stream.readCursor;
      var entry := TakeEntry(h, stream);
      PageNext(h, stream.data, at, pageEnd, entry, stream.readCursor);
      if !Present(entry) || stream.readCursor > pageEnd { return; }
      left := left[1..];
      entries := entries + [entry];
    }
  }

  /** The constructor of a page: it skips the page's entry in the table, reads the page where it is, and comes back. */
  method TakePage(h: Header, stream: GrowableMemoryStream, pageOffset: nat, pageEnd: nat) returns (entries: seq<Entry>)
    modifies stream`readCursor
    ensures entries == ReadPage(h, stream.data, Clamped(stream.data, pageOffset), pageEnd)
    ensures stream.readCursor == Clamped(stream.data, old(stream.readCursor) + h.contentKeySize + 16)
  {
    stream.SkipRead(h.contentKeySize + 0x10);
    var position := stream.readCursor;
    stream.SeekRead(pageOffset);
    entries := TakeEntries(h, stream, pageEnd);
    stream.SeekRead(position);
  }

  method TakePageAt(h: Header, stream: GrowableMemoryStream, pageOffset: nat) returns (page: seq<Entry>)
    modifies stream`readCursor
    ensures page == PageAt(h, stream.data, pageOffset)
    ensures stream.readCursor == Clamped(stream.data, old(stream.readCursor) + h.contentKeySize + 16)
  {
    page := TakePage(h, stream, pageOffset, pageOffset + h.pageSize);
  }

  method TakePages(h: Header, stream: GrowableMemoryStream, pageStart: nat) returns (pages: seq<seq<Entry>>)
    modifies stream`readCursor
    ensures pages == ReadPages(h, stream.data, pageStart, h.pageCount)
  {
    pages := [];
    for i := 0 to h.pageCount
      invariant pages == ReadPages(h, stream.data, pageStart, i)
    {
      NextPages(h, stream.data, pageStart, i);
      var page := TakePageAt(h, stream, PageOffset(h, pageStart, i));
      pages := pages + [page];
    }
  }

  class Encoding {
    var header: Header
    var cekeyPages: seq<seq<Entry>>

    ghost predicate Valid()
      reads this
    {
      Sized(header, cekeyPages)
    }

    constructor ()
      ensures header == NO_HEADER && cekeyPages == [] && Valid()
    {
      header, cekeyPages := NO_HEADER, [];
    }

    method Load(stream: GrowableMemoryStream)
      requires stream.readCursor <= |stream.data| && cekeyPages == []
      modifies this, stream`readCursor
      ensures Manifest(header, cekeyPages) == Parse(stream.data, old(stream.readCursor))
      ensures Valid()
    {
      header := TakeHeader(stream);
      if header.signature != 0x454E { return; }
      stream.SkipRead(header.specBlockSize);
      var pageStart := PageStart(header, stream.readCursor);
      cekeyPages := TakePages(header, stream, pageStart);
      PagesAreSized(header, stream.data, pageStart, header.pageCount);
    }

    /** How many entries there are. */
    method Count() returns (value: nat)
      ensures value == Total(cekeyPages)
    {
      value := 0;
      assert cekeyPages[..0] == [];
      for i := 0 to |cekeyPages|
        invariant value == Total(cekeyPages[..i])
      {
        assert cekeyPages[..i + 1][..i] == cekeyPages[..i];
        value := value + |cekeyPages[i]|;
      }
      assert cekeyPages[..|cekeyPages|] == cekeyPages;
    }

    /** The first entry with the content key: its size, the number of its encoding keys, and all of them. */
    method FindFile(contentKey: seq<byte>) returns (found: Option<(Option<nat>, byte, seq<byte>)>)
      requires Valid()
      ensures match found
        case None => NoneBefore(cekeyPages, contentKey, |cekeyPages|)
        case Some((fileSize, keyCount, keys)) =>
          exists i: nat, j: nat | i < |cekeyPages| && j < |cekeyPages[i]| ::
            FirstWith(cekeyPages, contentKey, i, j) && cekeyPages[i][j] == Entry(keyCount, fileSize, contentKey, keys)
    {
      for i := 0 to |cekeyPages|
        invariant NoneBefore(cekeyPages, contentKey, i)
      {
        var page := cekeyPages[i];
        for j := 0 to |page|
          invariant forall k | 0 <= k < j :: page[k].ckey != contentKey
        {
          if page[j].ckey == contentKey {
            assert SizedEntry(header, page[j]);
            var keys := page[j].ekeys[..page[j].keyCount as int * header.encodingKeySize];
            assert keys == page[j].ekeys;
            assert FirstWith(cekeyPages, contentKey, i, j);
            return Some((page[j].fileSize, page[j].keyCount, keys));
          }
        }
      }
      found := None;
    }
  }

  lemma {:induction false} PageIsSized(h: Header, data: seq<byte>, at: nat, end: nat)
    requires at <= |data|
    ensures forall e | e in ReadPage(h, data, at, end) :: SizedEntry(h, e)
    decreases |data| - at
  {
    if at < end {
      var (e, next) := ReadEntry(h, data, at);
      if Present(e) && next <= end {
        PresentHasKeys(h, data, at);
        PageIsSized(h, data, next, end);
      }
    }
  }

  lemma PageAtIsSized(h: Header, data: seq<byte>, offset: nat)
    ensures forall j | 0 <= j < |PageAt(h, data, offset)| :: SizedEntry(h, PageAt(h, data, offset)[j])
  {
    PageIsSized(h, data, Clamped(data, offset), offset + h.pageSize);
    var page := PageAt(h, data, offset);
    assert forall j | 0 <= j < |page| :: page[j] in page;
  }

  lemma SizedNext(h: Header, pages: seq<seq<Entry>>, page: seq<Entry>)
    requires Sized(h, pages) && forall j | 0 <= j < |page| :: SizedEntry(h, page[j])
    ensures Sized(h, pages + [page])
  {
  }

  lemma {:induction false} PagesAreSized(h: Header, data: seq<byte>, pageStart: nat, n: nat)
    ensures Sized(h, ReadPages(h, data, pageStart, n))
  {
    if n > 0 {
      PagesAreSized(h, data, pageStart, n - 1);
      PageAtIsSized(h, data, PageOffset(h, pageStart, n - 1));
      SizedNext(h, ReadPages(h, data, pageStart, n - 1), PageAt(h, data, PageOffset(h, pageStart, n - 1)));
    }
  }
}
