/** Manifests as they are meant to be written, and that reading one gives back what was written. */
module EncodingRoundTrip {
  import opened Arithmetic
  import opened Bytes
  import opened Concatenation
  import opened EncodingFormat
  import opened MemoryStreams

  // ----- the serializer -----

  /** What a writer chooses: key sizes, page sizes in kilobytes, the strings. */
  datatype Settings = Settings(version: byte, encodingKeySize: byte, contentKeySize: byte, pageKb: nat,
                               specPageKb: nat, specPageCount: nat, unknown: byte, specs: seq<byte>) {
    predicate Usable() {
      && encodingKeySize > 0 && contentKeySize > 0 && pageKb < 0x1_0000 && specPageKb < 0x1_0000
      && specPageCount < TWO_TO_32 && |specs| < TWO_TO_32
    }

    function HeaderFor(pages: nat): Header {
      Header(SIGNATURE, version, encodingKeySize, contentKeySize, pageKb * 1024, pages, specPageKb * 1024, specPageCount, |specs|)
    }
  }

  predicate EntryFits(h: Header, e: Entry) {
    && e.keyCount > 0 && e.fileSize.Some? && e.fileSize.value < Pow256(5)
    && |e.ckey| == h.contentKeySize > 0 && |e.ekeys| == e.keyCount as int * h.encodingKeySize && e.ekeys != []
  }

  function EntryBytes(h: Header, e: Entry): (b: seq<byte>)
    requires EntryFits(h, e)
  {
    [e.keyCount] + BigEndianBytes(e.fileSize.value, 5) + e.ckey + e.ekeys
  }

  function EntriesBytes(h: Header, entries: seq<Entry>): seq<byte>
    requires forall e | e in entries :: EntryFits(h, e)
  {
    if entries == [] then [] else EntryBytes(h, entries[0]) + EntriesBytes(h, entries[1..])
  }

  predicate PageFits(h: Header, entries: seq<Entry>) {
    (forall e | e in entries :: EntryFits(h, e)) && |EntriesBytes(h, entries)| <= h.pageSize
  }

  /** A page: its entries, and zeros up to the size of a page. */
  function PageBytes(h: Header, entries: seq<Entry>): (b: seq<byte>)
    requires PageFits(h, entries)
    ensures |b| == h.pageSize
  {
    EntriesBytes(h, entries) + Zeros(h.pageSize - |EntriesBytes(h, entries)|)
  }

  function Bytes16(v: nat): (b: seq<byte>)
    requires v < 0x1_0000
    ensures |b| == 2 && Be16(b, 0) == v
  {
    [v / 256, v % 256]
  }

  function HeaderBytes(s: Settings, pages: nat): (b: seq<byte>)
    requires s.Usable() && pages < TWO_TO_32
    ensures |b| == HEADER_SIZE
  {
    Bytes16(SIGNATURE) + [s.version, s.encodingKeySize, s.contentKeySize] + Bytes16(s.pageKb) + Bytes16(s.specPageKb) +
    Bytes32(pages) + Bytes32(s.specPageCount) + [s.unknown] + Bytes32(|s.specs|)
  }

  predicate Writable(s: Settings, pages: seq<seq<Entry>>) {
    s.Usable() && |pages| < TWO_TO_32 && forall p | p in pages :: PageFits(s.HeaderFor(|pages|), p)
  }

  function AllPages(h: Header, pages: seq<seq<Entry>>): (all: seq<seq<byte>>)
    requires forall p | p in pages :: PageFits(h, p)
    ensures |all| == |pages| && AllOf(all, h.pageSize)
    ensures forall i | 0 <= i < |pages| :: all[i] == PageBytes(h, pages[i])
  {
    seq(|pages|, i requires 0 <= i < |pages| => PageBytes(h, pages[i]))
  }

  /** The whole manifest.  The table of contents has a content key and a hash for each page; what it says is not read. */
  function File(s: Settings, pages: seq<seq<Entry>>, table: seq<byte>, rest: seq<byte>): seq<byte>
    requires Writable(s, pages)
  {
    HeaderBytes(s, |pages|) + s.specs + table + Flat(AllPages(s.HeaderFor(|pages|), pages)) + rest
  }

  /** Where the pages of a written manifest start. */
  function PagesAt(s: Settings, pages: nat): nat {
    HEADER_SIZE + |s.specs| + pages * (16 + s.contentKeySize as int)
  }

  // ----- entries -----

  lemma FilledWhole(data: seq<byte>, at: nat, bytes: seq<byte>)
    requires at + |bytes| <= |data| && data[at..at + |bytes|] == bytes
    ensures Filled(data, at, |bytes|) == bytes && Behind(data, at, |bytes|) == at + |bytes|
  {
  }

  lemma EntryReadsBack(h: Header, data: seq<byte>, at: nat, e: Entry)
    requires EntryFits(h, e) && at + |EntryBytes(h, e)| <= |data|
    requires data[at..at + |EntryBytes(h, e)|] == EntryBytes(h, e)
    ensures ReadEntry(h, data, at) == (e, at + |EntryBytes(h, e)|) && Present(e)
  {
    var size := BigEndianBytes(e.fileSize.value, 5);
    BigEndianRoundTrip(e.fileSize.value, 5);
    FourAt(data, at, [e.keyCount], size, e.ckey, e.ekeys);
    assert data[at] == data[at..at + 1][0];
    FilledWhole(data, at + 6, e.ckey);
    FilledWhole(data, at + 6 + |e.ckey|, e.ekeys);
  }

  // ----- pages -----

  /** The entries stand one behind the other, then a zero byte or the end of the page. */
  ghost predicate Stand(h: Header, data: seq<byte>, at: nat, end: nat, entries: seq<Entry>)
    decreases |entries|
  {
    && at <= end <= |data|
    && if entries == [] then at < end ==> data[at] == 0
       else
         && EntryFits(h, entries[0]) && at + |EntryBytes(h, entries[0])| <= end
         && data[at..at + |EntryBytes(h, entries[0])|] == EntryBytes(h, entries[0])
         && Stand(h, data, at + |EntryBytes(h, entries[0])|, end, entries[1..])
  }

  lemma {:induction false} PageStands(h: Header, data: seq<byte>, at: nat, end: nat, entries: seq<Entry>, n: nat)
    requires (forall e | e in entries :: EntryFits(h, e)) && at <= end <= |data|
    requires data[at..end] == EntriesBytes(h, entries) + Zeros(n)
    ensures Stand(h, data, at, end, entries)
    decreases |entries|
  {
    if entries == [] {
      if at < end { assert data[at] == data[at..end][0]; }
    } else {
      var first, rest := EntryBytes(h, entries[0]), EntriesBytes(h, entries[1..]);
      assert (first + rest) + Zeros(n) == first + (rest + Zeros(n));
      SplitAt(data, at, end, first, rest + Zeros(n));
      PageStands(h, data, at + |first|, end, entries[1..], n);
    }
  }

  lemma ZeroEndsPage(h: Header, data: seq<byte>, at: nat, end: nat)
    requires at <= end <= |data| && (at < end ==> data[at] == 0)
    ensures ReadPage(h, data, at, end) == []
  {
    if at < end {
      var (e, next) := ReadEntry(h, data, at);
      assert |e.ekeys| == 0;
      PageNext(h, data, at, end, e, next);
    }
  }

  lemma {:induction false} PageReadsBack(h: Header, data: seq<byte>, at: nat, end: nat, entries: seq<Entry>)
    requires Stand(h, data, at, end, entries)
    ensures ReadPage(h, data, at, end) == entries
    decreases |entries|
  {
    if entries == [] {
      ZeroEndsPage(h, data, at, end);
    } else {
      var e, next := entries[0], at + |EntryBytes(h, entries[0])|;
      EntryReadsBack(h, data, at, e);
      PageNext(h, data, at, end, e, next);
      PageReadsBack(h, data, next, end, entries[1..]);
      assert entries == [e] + entries[1..];
    }
  }

  lemma SliceReadsBack(h: Header, data: seq<byte>, at: nat, end: nat, entries: seq<Entry>)
    requires PageFits(h, entries) && at <= end <= |data| && data[at..end] == PageBytes(h, entries)
    ensures ReadPage(h, data, at, end) == entries
  {
    PageStands(h, data, at, end, entries, h.pageSize - |EntriesBytes(h, entries)|);
    PageReadsBack(h, data, at, end, entries);
  }

  lemma PageAtReadsBack(h: Header, data: seq<byte>, offset: nat, entries: seq<Entry>)
    requires PageFits(h, entries) && offset + h.pageSize <= |data|
    requires data[offset..offset + h.pageSize] == PageBytes(h, entries)
    ensures PageAt(h, data, offset) == entries
  {
    SliceReadsBack(h, data, offset, offset + h.pageSize, entries);
  }

  lemma PageFound(h: Header, pages: seq<seq<Entry>>, front: seq<byte>, rest: seq<byte>, data: seq<byte>, i: nat)
    requires (forall p | p in pages :: PageFits(h, p)) && i < |pages|
    requires data == front + Flat(AllPages(h, pages)) + rest
    ensures PageAt(h, data, PageOffset(h, |front|, i)) == pages[i]
  {
    var offset := PageOffset(h, |front|, i);
    FlatWithin(front, AllPages(h, pages), rest, h.pageSize, i, offset);
    PageAtReadsBack(h, data, offset, pages[i]);
  }

  lemma {:induction false} PageNth(h: Header, data: seq<byte>, start: nat, n: nat, i: nat)
    requires i < n
    ensures ReadPages(h, data, start, n)[i] == PageAt(h, data, PageOffset(h, start, i))
  {
    NextPages(h, data, start, n - 1);
    if i < n - 1 { PageNth(h, data, start, n - 1, i); }
  }

  // ----- the manifest -----

  lemma HeaderReadsBack(s: Settings, pages: nat, data: seq<byte>)
    requires s.Usable() && pages < TWO_TO_32 && HEADER_SIZE <= |data| && data[..HEADER_SIZE] == HeaderBytes(s, pages)
    ensures ReadHeader(data, 0) == s.HeaderFor(pages)
  {
    var b := HeaderBytes(s, pages);
    assert forall k | 0 <= k < HEADER_SIZE :: data[k] == b[k];
    assert b[9..13] == Bytes32(pages) && b[13..17] == Bytes32(s.specPageCount) && b[18..22] == Bytes32(|s.specs|);
    assert data[9..13] == b[9..13] && data[13..17] == b[13..17] && data[18..22] == b[18..22];
    Be32At(data, 9, pages);
    Be32At(data, 13, s.specPageCount);
    Be32At(data, 18, |s.specs|);
    assert b[0..2] == Bytes16(SIGNATURE) && b[5..7] == Bytes16(s.pageKb) && b[7..9] == Bytes16(s.specPageKb);
    Be16At(b, 0, SIGNATURE);
    Be16At(b, 5, s.pageKb);
    Be16At(b, 7, s.specPageKb);
  }

  /** Two bytes decide whether there is a manifest: without them, or with fewer than twenty-two bytes, there are no pages. */
  lemma SignatureDecides(data: seq<byte>)
    requires |data| < 22 || data[..2] != [0x45, 0x4E]
    ensures Parse(data, 0).pages == []
  {
    if |data| >= 22 { assert data[..2] == [data[0], data[1]]; }
  }

  lemma Be16At(data: seq<byte>, at: nat, v: nat)
    requires v < 0x1_0000 && at + 2 <= |data| && data[at..at + 2] == Bytes16(v)
    ensures Be16(data, at) == v
  {
    var b := data[at..at + 2];
    assert data[at] == b[0] && data[at + 1] == b[1];
  }

  /** The source looks for the pages where they were written, exactly if the two key sizes agree or there is no page. */
  lemma PagesAreLookedForWhere(s: Settings, pages: nat)
    ensures PageStart(s.HeaderFor(pages), HEADER_SIZE + |s.specs|) == PagesAt(s, pages) <==>
      (s.encodingKeySize == s.contentKeySize || pages == 0)
  {
    EqualProducts(pages, 16 + s.encodingKeySize as int, 16 + s.contentKeySize as int);
  }

  /** A written manifest: what stands before the pages, and its header. */
  lemma WrittenParts(s: Settings, pages: seq<seq<Entry>>, table: seq<byte>, rest: seq<byte>)
    requires Writable(s, pages)
    ensures var h, data := s.HeaderFor(|pages|), File(s, pages, table, rest);
      && data == (HeaderBytes(s, |pages|) + s.specs + table) + Flat(AllPages(h, pages)) + rest
      && HEADER_SIZE <= |data| && ReadHeader(data, 0) == h
      && Parse(data, 0) == Manifest(h, ReadPages(h, data, PageStart(h, HEADER_SIZE + |s.specs|), |pages|))
  {
    var header, data := HeaderBytes(s, |pages|), File(s, pages, table, rest);
    var all := Flat(AllPages(s.HeaderFor(|pages|), pages));
    FirstOfFive(header, s.specs, table, all, rest);
    HeaderReadsBack(s, |pages|, data);
    ParsedWith(s.HeaderFor(|pages|), data);
  }

  lemma FirstOfFive<T>(a: seq<T>, b: seq<T>, c: seq<T>, d: seq<T>, e: seq<T>)
    ensures |a| <= |a + b + c + d + e| && (a + b + c + d + e)[..|a|] == a
  {
  }

  lemma ParsedWith(h: Header, data: seq<byte>)
    requires ReadHeader(data, 0) == h && h.signature == SIGNATURE
    ensures Parse(data, 0) == Manifest(h, ReadPages(h, data, PageStart(h, HEADER_SIZE + h.specBlockSize), h.pageCount))
  {
  }

  /** Reading a written manifest whose key sizes agree gives back its header and every page, entry by entry. */
  lemma FileReadsBack(s: Settings, pages: seq<seq<Entry>>, table: seq<byte>, rest: seq<byte>)
    requires Writable(s, pages) && |table| == |pages| * (16 + s.contentKeySize as int)
    requires s.encodingKeySize == s.contentKeySize || pages == []
    ensures Parse(File(s, pages, table, rest), 0) == Manifest(s.HeaderFor(|pages|), pages)
  {
    var h, data := s.HeaderFor(|pages|), File(s, pages, table, rest);
    var front := HeaderBytes(s, |pages|) + s.specs + table;
    assert PageStart(h, HEADER_SIZE + |s.specs|) == |front| by { PagesAreLookedForWhere(s, |pages|); }
    assert data == front + Flat(AllPages(h, pages)) + rest && Parse(data, 0) == Manifest(h, ReadPages(h, data, |front|, |pages|)) by {
      WrittenParts(s, pages, table, rest);
    }
    AllPagesFound(h, pages, front, rest, data);
  }

  lemma AllPagesFound(h: Header, pages: seq<seq<Entry>>, front: seq<byte>, rest: seq<byte>, data: seq<byte>)
    requires (forall p | p in pages :: PageFits(h, p)) && data == front + Flat(AllPages(h, pages)) + rest
    ensures ReadPages(h, data, |front|, |pages|) == pages
  {
    var read := ReadPages(h, data, |front|, |pages|);
    forall i | 0 <= i < |pages|
      ensures read[i] == pages[i]
    {
      PageNth(h, data, |front|, |pages|, i);
      PageFound(h, pages, front, rest, data, i);
    }
  }

  // ----- what is read back, exactly -----

  /** No entry is kept that starts here: the page or the stream is over, the count of keys is zero, or the entry would
      go past the end of the page. */
  predicate NoneKept(h: Header, data: seq<byte>, at: nat, end: nat)
    requires at <= |data|
  {
    at >= end || at == |data| || data[at] == 0 ||
    Behind(data, at, 6 + h.contentKeySize + data[at] as int * h.encodingKeySize) > end
  }

  /** The bytes of these entries are there, one behind the other, and then no entry that is kept.  Keys that the end of the
      stream cuts off are filled with zeros. */
  predicate EntriesAt(h: Header, data: seq<byte>, at: nat, end: nat, entries: seq<Entry>)
    requires at <= |data| && forall e | e in entries :: EntryFits(h, e)
    decreases |entries|
  {
    if entries == [] then NoneKept(h, data, at, end)
    else
      var bytes := EntryBytes(h, entries[0]);
      var next := Behind(data, at, |bytes|);
      && at < end && at + 6 <= |data| && Filled(data, at, |bytes|) == bytes && next <= end
      && EntriesAt(h, data, next, end, entries[1..])
  }

  lemma FilledParts(data: seq<byte>, at: nat, m: nat, n: nat)
    requires at <= |data|
    ensures Filled(data, at, m + n) == Filled(data, at, m) + Filled(data, Behind(data, at, m), n)
    ensures Behind(data, at, m + n) == Behind(data, Behind(data, at, m), n)
  {
  }

  /** The parts of the bytes of an entry. */
  lemma EntryParts(h: Header, data: seq<byte>, at: nat, e: Entry)
    requires EntryFits(h, e) && at + 6 <= |data|
    ensures Filled(data, at, |EntryBytes(h, e)|) == EntryBytes(h, e) <==>
      && data[at] == e.keyCount && data[at + 1..at + 6] == BigEndianBytes(e.fileSize.value, 5)
      && Filled(data, at + 6, |e.ckey|) == e.ckey && Filled(data, Behind(data, at + 6, |e.ckey|), |e.ekeys|) == e.ekeys
  {
    var ckey, ekeys := Filled(data, at + 6, |e.ckey|), Filled(data, Behind(data, at + 6, |e.ckey|), |e.ekeys|);
    FilledFour(data, at, |e.ckey|, |e.ekeys|);
    FourSame([data[at]], data[at + 1..at + 6], ckey, ekeys, [e.keyCount], BigEndianBytes(e.fileSize.value, 5), e.ckey, e.ekeys);
  }

  lemma FilledFour(data: seq<byte>, at: nat, m: nat, n: nat)
    requires at + 6 <= |data|
    ensures Filled(data, at, 6 + m + n) ==
      [data[at]] + data[at + 1..at + 6] + Filled(data, at + 6, m) + Filled(data, Behind(data, at + 6, m), n)
    ensures Behind(data, at, 6 + m + n) == Behind(data, Behind(data, at + 6, m), n)
  {
    FilledParts(data, at, 6 + m, n);
    FilledParts(data, at, 6, m);
    FilledThere(data, at, 6);
    assert data[at..at + 6] == [data[at]] + data[at + 1..at + 6];
  }

  lemma FilledThere(data: seq<byte>, at: nat, n: nat)
    requires at + n <= |data|
    ensures Filled(data, at, n) == data[at..at + n] && Behind(data, at, n) == at + n
  {
  }

  lemma FourSame<T>(a: seq<T>, b: seq<T>, c: seq<T>, d: seq<T>, a': seq<T>, b': seq<T>, c': seq<T>, d': seq<T>)
    requires |a| == |a'| && |b| == |b'| && |c| == |c'| && |d| == |d'|
    ensures a + b + c + d == a' + b' + c' + d' <==> a == a' && b == b' && c == c' && d == d'
  {
    if a + b + c + d == a' + b' + c' + d' {
      var x, y := a + b + c + d, a' + b' + c' + d';
      assert x[..|a|] == a && y[..|a|] == a';
      assert x[|a|..|a| + |b|] == b && y[|a|..|a| + |b|] == b';
      assert x[|a| + |b|..|a| + |b| + |c|] == c && y[|a| + |b|..|a| + |b| + |c|] == c';
      assert x[|a| + |b| + |c|..] == d && y[|a| + |b| + |c|..] == d';
    }
  }

  /** An entry is read exactly if its bytes are there. */
  lemma EntryIsRead(h: Header, data: seq<byte>, at: nat, e: Entry)
    requires EntryFits(h, e) && at <= |data|
    ensures ReadEntry(h, data, at).0 == e <==> at + 6 <= |data| && Filled(data, at, |EntryBytes(h, e)|) == EntryBytes(h, e)
    ensures ReadEntry(h, data, at).0 == e ==> ReadEntry(h, data, at).1 == Behind(data, at, |EntryBytes(h, e)|)
  {
    if at + 6 <= |data| {
      EntryParts(h, data, at, e);
      SizeIsRead(data[at + 1..at + 6], e.fileSize.value);
      FilledFour(data, at, |e.ckey|, |e.ekeys|);
    }
  }

  lemma {:induction false} SizeIsRead(bytes: seq<byte>, v: nat)
    requires |bytes| == 5 && v < Pow256(5)
    ensures BigEndian(bytes) == v <==> bytes == BigEndianBytes(v, 5)
  {
    BigEndianRoundTrip(v, 5);
    BytesReadBack(bytes);
  }

  lemma {:induction false} BytesReadBack(bytes: seq<byte>)
    ensures BigEndianBytes(BigEndian(bytes), |bytes|) == bytes
    decreases |bytes|
  {
    if bytes != [] {
      var n := |bytes| - 1;
      BytesReadBack(bytes[..n]);
      assert bytes == bytes[..n] + [bytes[n]];
    }
  }

  /** Nothing more is kept exactly if there is no entry to keep. */
  lemma NoneKeptIs(h: Header, data: seq<byte>, at: nat, end: nat)
    requires at <= |data| && h.contentKeySize > 0 && h.encodingKeySize > 0
    ensures ReadPage(h, data, at, end) == [] <==> NoneKept(h, data, at, end)
  {
    if at < end {
      var (e, next) := ReadEntry(h, data, at);
      PageNext(h, data, at, end, e, next);
      EntryEnds(h, data, at);
    }
  }

  /** How many keys an entry has, and where it ends. */
  lemma EntryEnds(h: Header, data: seq<byte>, at: nat)
    requires at <= |data| && h.contentKeySize > 0 && h.encodingKeySize > 0
    ensures var (e, next) := ReadEntry(h, data, at);
      && (Present(e) <==> at < |data| && data[at] > 0)
      && (at < |data| ==> next == Behind(data, at, 6 + h.contentKeySize + data[at] as int * h.encodingKeySize))
  {
    var e := ReadEntry(h, data, at).0;
    KeysOf(e.keyCount, h.encodingKeySize);
    assert |e.ckey| == h.contentKeySize && |e.ekeys| == e.keyCount as int * h.encodingKeySize;
  }

  lemma KeysOf(n: nat, size: nat)
    requires size > 0
    ensures 0 <= n * size && (n * size == 0 <==> n == 0)
  {
  }

  /** A page is read as these entries exactly if their bytes are there and no other entry follows. */
  lemma {:induction false} PageIsRead(h: Header, data: seq<byte>, at: nat, end: nat, entries: seq<Entry>)
    requires at <= |data| && h.contentKeySize > 0 && h.encodingKeySize > 0 && forall e | e in entries :: EntryFits(h, e)
    ensures ReadPage(h, data, at, end) == entries <==> EntriesAt(h, data, at, end, entries)
    decreases |entries|
  {
    if entries == [] {
      NoneKeptIs(h, data, at, end);
    } else if at < end {
      var e := entries[0];
      var next := Behind(data, at, |EntryBytes(h, e)|);
      EntryIsRead(h, data, at, e);
      PageNext(h, data, at, end, ReadEntry(h, data, at).0, ReadEntry(h, data, at).1);
      PageIsRead(h, data, next, end, entries[1..]);
      assert entries == [e] + entries[1..];
    }
  }

  /** The entries of a page are at this offset. */
  predicate PageThere(h: Header, data: seq<byte>, offset: nat, entries: seq<Entry>)
    requires PageFits(h, entries)
  {
    EntriesAt(h, data, Clamped(data, offset), offset + h.pageSize, entries)
  }

  predicate PagesThere(h: Header, data: seq<byte>, start: nat, pages: seq<seq<Entry>>)
    requires forall p | p in pages :: PageFits(h, p)
  {
    forall i | 0 <= i < |pages| :: PageThere(h, data, PageOffset(h, start, i), pages[i])
  }

  lemma PageAtIsRead(h: Header, data: seq<byte>, offset: nat, entries: seq<Entry>)
    requires h.contentKeySize > 0 && h.encodingKeySize > 0 && PageFits(h, entries)
    ensures PageAt(h, data, offset) == entries <==> PageThere(h, data, offset, entries)
  {
    var at, end := Clamped(data, offset), offset + h.pageSize;
    assert ReadPage(h, data, at, end) == entries <==> EntriesAt(h, data, at, end, entries) by { PageIsRead(h, data, at, end, entries); }
  }

  lemma PagesAreRead(h: Header, data: seq<byte>, start: nat, pages: seq<seq<Entry>>)
    requires h.contentKeySize > 0 && h.encodingKeySize > 0 && forall p | p in pages :: PageFits(h, p)
    ensures ReadPages(h, data, start, |pages|) == pages <==> PagesThere(h, data, start, pages)
  {
    var read := ReadPages(h, data, start, |pages|);
    forall i | 0 <= i < |pages|
      ensures read[i] == pages[i] <==> PageThere(h, data, PageOffset(h, start, i), pages[i])
    {
      PageNth(h, data, start, |pages|, i);
      PageAtIsRead(h, data, PageOffset(h, start, i), pages[i]);
    }
  }

  /** Whatever the key sizes, the table and what follows: a written manifest is read back exactly if the entries of every
      page are where the source looks for them, and no other entry follows. */
  lemma ManifestIsRead(s: Settings, pages: seq<seq<Entry>>, table: seq<byte>, rest: seq<byte>)
    requires Writable(s, pages)
    ensures var h, data := s.HeaderFor(|pages|), File(s, pages, table, rest);
      Parse(data, 0) == Manifest(h, pages) <==> PagesThere(h, data, PageStart(h, HEADER_SIZE + |s.specs|), pages)
  {
    var h, data := s.HeaderFor(|pages|), File(s, pages, table, rest);
    WrittenParts(s, pages, table, rest);
    PagesAreRead(h, data, PageStart(h, HEADER_SIZE + |s.specs|), pages);
  }

  // ----- manifests whose key sizes differ -----

  /** What is read where the pages are looked for instead. */
  lemma ReadWhere(s: Settings, pages: seq<seq<Entry>>, table: seq<byte>, rest: seq<byte>, i: nat)
    requires Writable(s, pages) && i < |pages|
    ensures var h, data := s.HeaderFor(|pages|), File(s, pages, table, rest);
      Parse(data, 0).pages[i] == PageAt(h, data, PageOffset(h, PageStart(h, HEADER_SIZE + |s.specs|), i))
  {
    var h, data := s.HeaderFor(|pages|), File(s, pages, table, rest);
    WrittenParts(s, pages, table, rest);
    PageNth(h, data, PageStart(h, HEADER_SIZE + |s.specs|), |pages|, i);
  }

  /** Nothing is read at a zero byte, nor behind the end. */
  lemma NothingThere(h: Header, data: seq<byte>, offset: nat)
    requires offset < |data| ==> data[offset] == 0
    ensures PageAt(h, data, offset) == []
  {
    var at, end := Clamped(data, offset), offset + h.pageSize;
    if at < end {
      var (e, next) := ReadEntry(h, data, at);
      assert e.keyCount == 0 && |e.ekeys| == 0;
      PageNext(h, data, at, end, e, next);
    }
  }

  /** An entry is kept with the count of keys that its first byte gives. */
  lemma FirstByteCounts(h: Header, data: seq<byte>, offset: nat)
    ensures PageAt(h, data, offset) != [] ==> offset < |data| && PageAt(h, data, offset)[0].keyCount == data[offset]
  {
    if offset < |data| && h.pageSize > 0 {
      var (e, next) := ReadEntry(h, data, offset);
      PageNext(h, data, offset, offset + h.pageSize, e, next);
    } else if offset >= |data| {
      NothingThere(h, data, offset);
    }
  }

  /** A manifest is misread, whatever its key sizes, unless the byte where its first page is looked for happens to be the
      count of keys of the first entry of that page. */
  lemma MisreadUnless(s: Settings, pages: seq<seq<Entry>>, table: seq<byte>, rest: seq<byte>)
    requires Writable(s, pages) && pages != [] && pages[0] != []
    ensures var data, start := File(s, pages, table, rest), PageStart(s.HeaderFor(|pages|), HEADER_SIZE + |s.specs|);
      Parse(data, 0) == Manifest(s.HeaderFor(|pages|), pages) ==> start < |data| && data[start] == pages[0][0].keyCount
  {
    var h, data := s.HeaderFor(|pages|), File(s, pages, table, rest);
    var start := PageStart(h, HEADER_SIZE + |s.specs|);
    if Parse(data, 0) == Manifest(h, pages) {
      ReadWhere(s, pages, table, rest, 0);
      assert PageOffset(h, start, 0) == start;
      FirstByteCounts(h, data, start);
    }
  }

  /** With encoding keys shorter than content keys, the pages are looked for this many bytes before where they are. */
  function Early(s: Settings, pages: nat): int {
    pages * (s.contentKeySize as int - s.encodingKeySize as int)
  }

  lemma EarlyStart(s: Settings, pages: nat)
    requires s.encodingKeySize < s.contentKeySize
    ensures PageStart(s.HeaderFor(pages), HEADER_SIZE + |s.specs|) + Early(s, pages) == PagesAt(s, pages)
    ensures 0 <= Early(s, pages) <= pages * (16 + s.contentKeySize as int)
  {
    var a, b := s.encodingKeySize as int, s.contentKeySize as int;
    assert pages * (16 + a) + pages * (b - a) == pages * (16 + b);
    assert 0 <= pages * (16 + a) && 0 <= pages * (b - a);
  }

  /** The last `n` bytes are zero. */
  predicate EndsInZeros(bytes: seq<byte>, n: int) {
    forall k | 0 <= k < |bytes| && |bytes| - n <= k :: bytes[k] == 0
  }

  /** A page that has entries does not start with a zero byte, one without consists of them. */
  lemma PageStartsWith(h: Header, entries: seq<Entry>)
    requires PageFits(h, entries)
    ensures entries == [] ==> PageBytes(h, entries) == Zeros(h.pageSize)
    ensures entries != [] ==> PageBytes(h, entries) != [] && PageBytes(h, entries)[0] == entries[0].keyCount > 0
  {
    if entries != [] { assert EntryFits(h, entries[0]); }
  }

  /** Pages without entries before page `i` are zeros. */
  lemma {:induction false} EmptyPagesAreZeros(h: Header, pages: seq<seq<Entry>>, i: nat)
    requires i <= |pages| && (forall p | p in pages :: PageFits(h, p)) && forall k | 0 <= k < i :: pages[k] == []
    ensures |Flat(AllPages(h, pages)[..i])| == i * h.pageSize
    ensures forall k | 0 <= k < i * h.pageSize :: Flat(AllPages(h, pages)[..i])[k] == 0
  {
    var all := AllPages(h, pages);
    if i == 0 {
      assert Flat(all[..0]) == [];
    } else {
      EmptyPagesAreZeros(h, pages, i - 1);
      assert Flat(all[..i]) == Flat(all[..i - 1]) + Zeros(h.pageSize) by {
        PageStartsWith(h, pages[i - 1]);
        assert all[..i] == all[..i - 1] + [all[i - 1]];
        FlatAppend(all[..i - 1], all[i - 1]);
      }
      NextMultiple(i, h.pageSize);
    }
  }

  lemma {:induction false} FlatPrefix<T>(parts: seq<seq<T>>, i: nat)
    requires i <= |parts|
    ensures Flat(parts[..i]) <= Flat(parts)
    decreases |parts| - i
  {
    if i < |parts| {
      FlatPrefix(parts, i + 1);
      assert parts[..i + 1] == parts[..i] + [parts[i]];
      FlatAppend(parts[..i], parts[i]);
    } else {
      assert parts[..i] == parts;
    }
  }

  /** Where page `i` is looked for there are zeros up to where it is, if the pages before it have no entries. */
  lemma ZerosBefore(s: Settings, pages: seq<seq<Entry>>, table: seq<byte>, rest: seq<byte>, i: nat)
    requires Writable(s, pages) && |table| == |pages| * (16 + s.contentKeySize as int) && i <= |pages|
    requires s.encodingKeySize < s.contentKeySize && EndsInZeros(table, Early(s, |pages|))
    requires forall k | 0 <= k < i :: pages[k] == []
    ensures var h, data := s.HeaderFor(|pages|), File(s, pages, table, rest);
      var start := PageStart(h, HEADER_SIZE + |s.specs|);
      && PagesAt(s, |pages|) + i * h.pageSize <= |data|
      && forall k | start <= k < PagesAt(s, |pages|) + i * h.pageSize :: data[k] == 0
  {
    var h, data := s.HeaderFor(|pages|), File(s, pages, table, rest);
    var front, all := HeaderBytes(s, |pages|) + s.specs, AllPages(h, pages);
    EarlyStart(s, |pages|);
    EmptyPagesAreZeros(h, pages, i);
    FlatPrefix(all, i);
    var zeros := Flat(all[..i]);
    ZerosInside(front, table, Early(s, |pages|), zeros, Flat(all), rest);
    assert data == front + table + Flat(all) + rest;
  }

  lemma ZerosInside(front: seq<byte>, table: seq<byte>, early: nat, zeros: seq<byte>, all: seq<byte>, rest: seq<byte>)
    requires early <= |table| && EndsInZeros(table, early) && zeros <= all && forall k | 0 <= k < |zeros| :: zeros[k] == 0
    ensures var data := front + table + all + rest;
      forall k | |front| + |table| - early <= k < |front| + |table| + |zeros| :: data[k] == 0
  {
    var data := front + table + all + rest;
    forall k | |front| + |table| - early <= k < |front| + |table| + |zeros|
      ensures data[k] == 0
    {
      if k < |front| + |table| {
        assert data[k] == table[k - |front|];
      } else {
        assert data[k] == all[k - |front| - |table|] == zeros[k - |front| - |table|];
      }
    }
  }

  /** The first page that has entries. */
  function FirstFilled(pages: seq<seq<Entry>>): (i: nat)
    ensures i <= |pages| && (forall k | 0 <= k < i :: pages[k] == []) && (i < |pages| ==> pages[i] != [])
  {
    if pages == [] || pages[0] != [] then 0 else 1 + FirstFilled(pages[1..])
  }

  /** When encoding keys are shorter than content keys and zeros stand before the pages, a manifest is misread exactly if
      any page has an entry. */
  lemma ShorterKeysAreMisread(s: Settings, pages: seq<seq<Entry>>, table: seq<byte>, rest: seq<byte>)
    requires Writable(s, pages) && |table| == |pages| * (16 + s.contentKeySize as int)
    requires s.encodingKeySize < s.contentKeySize && EndsInZeros(table, Early(s, |pages|))
    ensures Parse(File(s, pages, table, rest), 0) == Manifest(s.HeaderFor(|pages|), pages) <==>
      forall p | p in pages :: p == []
  {
    var h, data := s.HeaderFor(|pages|), File(s, pages, table, rest);
    var n := FirstFilled(pages);
    WrittenParts(s, pages, table, rest);
    ZerosBefore(s, pages, table, rest, n);
    forall i | 0 <= i < |pages| && i <= n
      ensures Parse(data, 0).pages[i] == []
    {
      LookedForInZeros(s, |pages|, data, i, n);
      ReadWhere(s, pages, table, rest, i);
    }
    if n < |pages| {
      assert pages[n] in pages;
    } else {
      assert Parse(data, 0).pages == pages;
    }
  }

  /** Page `i` is looked for among the zeros. */
  lemma LookedForInZeros(s: Settings, pages: nat, data: seq<byte>, i: nat, n: nat)
    requires s.encodingKeySize < s.contentKeySize && i < pages && i <= n
    requires var h := s.HeaderFor(pages);
      var end := PagesAt(s, pages) + n * h.pageSize;
      end <= |data| && forall k | PageStart(h, HEADER_SIZE + |s.specs|) <= k < end :: data[k] == 0
    ensures var h := s.HeaderFor(pages);
      PageAt(h, data, PageOffset(h, PageStart(h, HEADER_SIZE + |s.specs|), i)) == []
  {
    var h := s.HeaderFor(pages);
    LooksEarlier(s, pages, i, n);
    NothingThere(h, data, PageOffset(h, PageStart(h, HEADER_SIZE + |s.specs|), i));
  }

  lemma LooksEarlier(s: Settings, pages: nat, i: nat, n: nat)
    requires s.encodingKeySize < s.contentKeySize && 0 < pages && i <= n
    ensures var h := s.HeaderFor(pages);
      var start := PageStart(h, HEADER_SIZE + |s.specs|);
      start <= PageOffset(h, start, i) < PagesAt(s, pages) + n * h.pageSize
  {
    var size := s.pageKb * 1024;
    EarlyStart(s, pages);
    Product(pages, s.contentKeySize as int - s.encodingKeySize as int);
    Product(i, size);
    Product(n - i, size);
    assert n * size == i * size + (n - i) * size;
  }

  lemma Product(a: nat, b: nat)
    ensures 0 <= a * b && (a > 0 && b > 0 ==> 0 < a * b)
  {
  }

  /** What is counted page by page is the number of all entries. */
  lemma {:induction false} TotalIsCount(pages: seq<seq<Entry>>)
    ensures Total(pages) == |Flat(pages)|
    decreases |pages|
  {
    if pages != [] {
      var front, last := pages[..|pages| - 1], pages[|pages| - 1];
      TotalIsCount(front);
      FlatAppend(front, last);
      assert pages == front + [last];
    }
  }
}
