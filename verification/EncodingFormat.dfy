/** Encoding manifests: a header, a block of strings, a table of contents, and pages of entries of varying length. */
module EncodingFormat {
  import opened Bytes
  import opened MemoryStreams

  datatype Header = Header(signature: nat, version: nat, encodingKeySize: nat, contentKeySize: nat,
                           pageSize: nat, pageCount: nat, specPageSize: nat, specPageCount: nat, specBlockSize: nat)

  const HEADER_SIZE: nat := 22
  const SIGNATURE: nat := 0x454E
  const NO_HEADER := Header(0, 0, 0, 0, 0, 0, 0, 0, 0)

  function Be16(data: seq<byte>, at: nat): nat
    requires at + 2 <= |data|
  {
    data[at] as int * 256 + data[at + 1] as int
  }

  /** A header that does not fit leaves every field zero. */
  function ReadHeader(data: seq<byte>, at: nat): Header
    requires at <= |data|
  {
    if at + HEADER_SIZE > |data| then NO_HEADER
    else Header(Be16(data, at), data[at + 2], data[at + 3], data[at + 4], Be16(data, at + 5) * 1024, Be32(data, at + 9),
                Be16(data, at + 7) * 1024, Be32(data, at + 13), Be32(data, at + 18))
  }

  /** An entry.  No size: fewer than five bytes were left for it, and the array they are read into was never set. */
  datatype Entry = Entry(keyCount: byte, fileSize: Option<nat>, ckey: seq<byte>, ekeys: seq<byte>)

  /** Bytes that are missing stay zero. */
  function Filled(data: seq<byte>, at: nat, n: nat): (bytes: seq<byte>)
    requires at <= |data|
    ensures |bytes| == n
  {
    data[at..at + Taken(data, at, n)] + Zeros(n - Taken(data, at, n))
  }

  function Behind(data: seq<byte>, at: nat, n: nat): (next: nat)
    requires at <= |data|
    ensures at <= next <= |data|
  {
    at + Taken(data, at, n)
  }

  function ReadEntry(h: Header, data: seq<byte>, at: nat): (r: (Entry, nat))
    requires at <= |data|
    ensures at <= r.1 <= |data| && (r.0.keyCount > 0 ==> at < r.1)
  {
    var keyCount: byte := if at < |data| then data[at] else 0;
    var sizeAt := Behind(data, at, 1);
    var fileSize := if sizeAt + 5 <= |data| then Some(BigEndian(data[sizeAt..sizeAt + 5])) else None;
    var ckeyAt := Behind(data, sizeAt, 5);
    var ekeysAt := Behind(data, ckeyAt, h.contentKeySize);
    var n := keyCount as int * h.encodingKeySize;
    (Entry(keyCount, fileSize, Filled(data, ckeyAt, h.contentKeySize), Filled(data, ekeysAt, n)), Behind(data, ekeysAt, n))
  }

  /** The conversion to bool: both keys are there. */
  predicate Present(e: Entry) {
    e.ckey != [] && e.ekeys != []
  }

  lemma PresentHasKeys(h: Header, data: seq<byte>, at: nat)
    requires at <= |data| && Present(ReadEntry(h, data, at).0)
    ensures at < ReadEntry(h, data, at).1
  {
    var e := ReadEntry(h, data, at).0;
    assert |e.ekeys| == e.keyCount as int * h.encodingKeySize;
  }

  /** The entries of a page that ends at `end`, up to padding or an entry that goes past the end. */
  function ReadPage(h: Header, data: seq<byte>, at: nat, end: nat): seq<Entry>
    requires at <= |data|
    decreases |data| - at
  {
    if at >= end then []
    else
      var (e, next) := ReadEntry(h, data, at);
      if !Present(e) || next > end then [] else PresentHasKeys(h, data, at); [e] + ReadPage(h, data, next, end)
  }

  lemma PageNext(h: Header, data: seq<byte>, at: nat, end: nat, e: Entry, next: nat)
    requires at <= |data| && at < end && (e, next) == ReadEntry(h, data, at)
    ensures !Present(e) || next > end ==> ReadPage(h, data, at, end) == []
    ensures Present(e) && next <= end ==> at < next && ReadPage(h, data, at, end) == [e] + ReadPage(h, data, next, end)
  {
    if Present(e) { PresentHasKeys(h, data, at); }
  }

  function Clamped(data: seq<byte>, at: nat): (c: nat)
    ensures c <= |data|
  {
    if at <= |data| then at else |data|
  }

  /** Where the first page starts.  The source takes a table-of-contents entry to be a hash and an encoding key. */
  function PageStart(h: Header, tableAt: nat): (start: nat)
    ensures tableAt <= start
  {
    tableAt + h.pageCount * (16 + h.encodingKeySize)
  }

  function PageOffset(h: Header, pageStart: nat, i: nat): nat {
    pageStart + i * h.pageSize
  }

  function PageAt(h: Header, data: seq<byte>, offset: nat): seq<Entry> {
    ReadPage(h, data, Clamped(data, offset), offset + h.pageSize)
  }

  /** The first `n` pages. */
  function ReadPages(h: Header, data: seq<byte>, pageStart: nat, n: nat): (pages: seq<seq<Entry>>)
    ensures |pages| == n
  {
    if n == 0 then []
    else ReadPages(h, data, pageStart, n - 1) + [PageAt(h, data, PageOffset(h, pageStart, n - 1))]
  }

  lemma NextPages(h: Header, data: seq<byte>, pageStart: nat, i: nat)
    ensures ReadPages(h, data, pageStart, i + 1)
         == ReadPages(h, data, pageStart, i) + [PageAt(h, data, PageOffset(h, pageStart, i))]
  {
  }

  datatype Manifest = Manifest(header: Header, pages: seq<seq<Entry>>)

  function Parse(data: seq<byte>, at: nat): Manifest
    requires at <= |data|
  {
    var h := ReadHeader(data, at);
    if h.signature != SIGNATURE then Manifest(h, [])
    else Manifest(h, ReadPages(h, data, PageStart(h, at + HEADER_SIZE + h.specBlockSize), h.pageCount))
  }

  function Total(pages: seq<seq<Entry>>): nat {
    if pages == [] then 0 else Total(pages[..|pages| - 1]) + |pages[|pages| - 1]|
  }

  /** Where a content key is looked for and found: the first entry that has it, in the first page that has such an entry. */
  predicate FirstWith(pages: seq<seq<Entry>>, key: seq<byte>, i: nat, j: nat)
    requires i < |pages| && j < |pages[i]|
  {
    && pages[i][j].ckey == key
    && NoneBefore(pages, key, i) && forall k | 0 <= k < j :: pages[i][k].ckey != key
  }

  predicate NoneBefore(pages: seq<seq<Entry>>, key: seq<byte>, i: nat)
    requires i <= |pages|
  {
    forall page, k | 0 <= page < i && 0 <= k < |pages[page]| :: pages[page][k].ckey != key
  }

  ghost predicate Sized(h: Header, pages: seq<seq<Entry>>) {
    forall i, j | 0 <= i < |pages| && 0 <= j < |pages[i]| :: SizedEntry(h, pages[i][j])
  }

  ghost predicate SizedEntry(h: Header, e: Entry) {
    Present(e) && |e.ckey| == h.contentKeySize && |e.ekeys| == e.keyCount as int * h.encodingKeySize
  }
}
