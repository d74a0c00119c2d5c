/** Index files as they are meant to be written, and that reading one gives back what was written. */
module IndexRoundTrip {
  import opened Arithmetic
  import opened Bytes
  import opened Concatenation
  import opened IndexFormat

  // ----- the serializer -----

  datatype Format = Format(blockSizeKb: byte, offsetBytes: byte, sizeBytes: byte, keyBytes: byte, checksum: nat) {
    predicate Usable() {
      0 < checksum <= LARGEST_CHECKSUM && keyBytes as int + sizeBytes as int + offsetBytes as int > 0
    }

    function With(blocks: nat): (l: Layout) {
      Layout(1024 * (blockSizeKb as int), keyBytes, sizeBytes, offsetBytes, checksum, blocks)
    }
  }

  /** The parts of the file that are not looked at: the last keys, the hash of the table, versions, counts. */
  datatype Rest = Rest(lastKeys: seq<byte>, tocHash: seq<byte>, versions: seq<byte>, tail: seq<byte>)

  predicate Fits(f: Format, r: Record) {
    && |r.key| == f.keyBytes as int && (exists b | b in r.key :: b != 0)
    && r.size < Pow256(f.sizeBytes) && r.size < TWO_TO_64 && r.offset < Pow256(f.offsetBytes) && r.offset < TWO_TO_64
  }

  function EntryBytes(f: Format, r: Record): (e: seq<byte>)
    requires Fits(f, r)
    ensures |e| == f.With(0).EntrySize()
  {
    r.key + BigEndianBytes(r.size, f.sizeBytes) + BigEndianBytes(r.offset, f.offsetBytes)
  }

  function Encoded(f: Format, records: seq<Record>): (cells: seq<seq<byte>>)
    requires forall r | r in records :: Fits(f, r)
    ensures |cells| == |records| && AllOf(cells, f.With(0).EntrySize())
    ensures forall i | 0 <= i < |records| :: cells[i] == EntryBytes(f, records[i])
  {
    seq(|records|, i requires 0 <= i < |records| => EntryBytes(f, records[i]))
  }

  function Padding(width: nat, n: nat): (cells: seq<seq<byte>>)
    ensures |cells| == n && AllOf(cells, width) && forall e | e in cells :: AllZero(e)
  {
    seq(n, i => Zeros(width))
  }

  /** The entries of a block: its records, then zeros. */
  function Padded(f: Format, records: seq<Record>, n: nat): (cells: seq<seq<byte>>)
    requires (forall r | r in records :: Fits(f, r)) && |records| <= n
    ensures |cells| == n && AllOf(cells, f.With(0).EntrySize())
  {
    Encoded(f, records) + Padding(f.With(0).EntrySize(), n - |records|)
  }

  predicate BlockFitsIn(f: Format, records: seq<Record>)
    requires f.Usable()
  {
    |records| <= f.With(0).PerBlock() && forall r | r in records :: Fits(f, r)
  }

  function BlockBytes(f: Format, records: seq<Record>): (b: seq<byte>)
    requires f.Usable() && BlockFitsIn(f, records)
    ensures |b| == f.With(0).blockSize
  {
    var l := f.With(0);
    var cells := Padded(f, records, l.PerBlock());
    FlatSize(cells, l.EntrySize());
    QuotientFits(l.blockSize, l.EntrySize());
    Flat(cells) + Zeros(l.blockSize - |Flat(cells)|)
  }

  predicate Writable(f: Format, blocks: seq<seq<Record>>) {
    f.Usable() && forall b | b in blocks :: BlockFitsIn(f, b)
  }

  function AllBlocks(f: Format, blocks: seq<seq<Record>>): (all: seq<seq<byte>>)
    requires Writable(f, blocks)
    ensures |all| == |blocks| && forall b | b in all :: |b| == f.With(0).blockSize
    ensures forall i | 0 <= i < |blocks| :: all[i] == BlockBytes(f, blocks[i])
  {
    seq(|blocks|, i requires 0 <= i < |blocks| => BlockBytes(f, blocks[i]))
  }

  ghost function Hashes(md5: Digest, f: Format, blocks: seq<seq<byte>>): (all: seq<seq<byte>>)
    requires IsDigest(md5) && f.Usable()
    ensures |all| == |blocks| && forall h | h in all :: |h| == f.checksum
  {
    seq(|blocks|, i requires 0 <= i < |blocks| => md5(blocks[i])[..f.checksum])
  }

  predicate RestFits(f: Format, rest: Rest, blocks: nat) {
    && |rest.lastKeys| == blocks * (f.keyBytes as int) && |rest.tocHash| == f.checksum
    && |rest.versions| == 3 && |rest.tail| == 5 + f.checksum
  }

  function Footer(f: Format, rest: Rest): seq<byte> {
    rest.tocHash + (rest.versions + [f.blockSizeKb, f.offsetBytes, f.sizeBytes, f.keyBytes] + rest.tail)
  }

  function Whole(blocks: seq<seq<byte>>, lastKeys: seq<byte>, hashes: seq<seq<byte>>, footer: seq<byte>): seq<byte> {
    Flat(blocks) + lastKeys + Flat(hashes) + footer
  }

  ghost function File(md5: Digest, f: Format, blocks: seq<seq<Record>>, rest: Rest): seq<byte>
    requires IsDigest(md5) && Writable(f, blocks)
  {
    Whole(AllBlocks(f, blocks), rest.lastKeys, Hashes(md5, f, AllBlocks(f, blocks)), Footer(f, rest))
  }

  function Together(blocks: seq<seq<Record>>): seq<Record> {
    if blocks == [] then [] else blocks[0] + Together(blocks[1..])
  }

  // ----- entries -----

  lemma DecodeParts(l: Layout, key: seq<byte>, size: seq<byte>, offset: seq<byte>)
    requires |key| == l.keyBytes && |size| == l.sizeBytes && |offset| == l.offsetBytes
    ensures Decode(l, key + size + offset) == Record(key, BigEndian(size) % 0x1_0000_0000_0000_0000, BigEndian(offset) % 0x1_0000_0000_0000_0000)
  {
    ThreeParts(key, size, offset);
  }

  lemma NumberReadsBack(v: nat, n: nat)
    requires v < Pow256(n) && v < TWO_TO_64
    ensures BigEndian(BigEndianBytes(v, n)) % TWO_TO_64 == v
  {
    BigEndianRoundTrip(v, n);
  }

  lemma PartsReadBack(l: Layout, r: Record, size: seq<byte>, offset: seq<byte>)
    requires |r.key| == l.keyBytes && |size| == l.sizeBytes && |offset| == l.offsetBytes
    requires BigEndian(size) % TWO_TO_64 == r.size && BigEndian(offset) % TWO_TO_64 == r.offset
    ensures Decode(l, r.key + size + offset) == r
  {
    DecodeParts(l, r.key, size, offset);
  }

  lemma EntryReadsBack(f: Format, r: Record)
    requires Fits(f, r)
    ensures Decode(f.With(0), EntryBytes(f, r)) == r
  {
    NumberReadsBack(r.size, f.sizeBytes);
    NumberReadsBack(r.offset, f.offsetBytes);
    PartsReadBack(f.With(0), r, BigEndianBytes(r.size, f.sizeBytes), BigEndianBytes(r.offset, f.offsetBytes));
  }

  lemma {:induction false} UsedConcat(l: Layout, a: seq<seq<byte>>, b: seq<seq<byte>>)
    requires AreCells(l, a) && AreCells(l, b)
    ensures Used(l, a + b) == Used(l, a) + Used(l, b)
  {
    if a == [] {
      assert a + b == b;
    } else {
      assert (a + b)[1..] == a[1..] + b && (a + b)[0] == a[0];
      UsedConcat(l, a[1..], b);
      Associates(IfUsed(Decode(l, a[0])), Used(l, a[1..]), Used(l, b));
    }
  }

  lemma {:induction false} PaddingReadsBack(l: Layout, cells: seq<seq<byte>>)
    requires AreCells(l, cells) && forall e | e in cells :: AllZero(e)
    ensures Used(l, cells) == []
  {
    if cells != [] {
      forall b | b in cells[0][..l.keyBytes] ensures b == 0 { assert b in cells[0] && AllZero(cells[0]); }
      PaddingReadsBack(l, cells[1..]);
    }
  }

  lemma {:induction false} AllReadBack(l: Layout, cells: seq<seq<byte>>, records: seq<Record>)
    requires AreCells(l, cells) && |cells| == |records|
    requires forall i | 0 <= i < |cells| :: Decode(l, cells[i]) == records[i] && !AllZero(records[i].key)
    ensures Used(l, cells) == records
  {
    if cells != [] {
      AllReadBack(l, cells[1..], records[1..]);
      assert records == [records[0]] + records[1..];
    }
  }

  lemma PaddedReadsBack(f: Format, records: seq<Record>, n: nat)
    requires (forall r | r in records :: Fits(f, r)) && |records| <= n
    ensures Used(f.With(0), Padded(f, records, n)) == records
  {
    var l, cells := f.With(0), Encoded(f, records);
    var padding := Padding(l.EntrySize(), n - |records|);
    forall i | 0 <= i < |records|
      ensures Decode(l, cells[i]) == records[i] && !AllZero(records[i].key)
    {
      EntryReadsBack(f, records[i]);
    }
    AllReadBack(l, cells, records);
    PaddingReadsBack(l, padding);
    UsedConcat(l, cells, padding);
  }

  lemma CellReadsBack(l: Layout, cells: seq<seq<byte>>, block: seq<byte>, padding: seq<byte>, j: nat)
    requires l.EntrySize() > 0 && |block| == l.blockSize && block == Flat(cells) + padding
    requires AllOf(cells, l.EntrySize()) && |cells| == l.PerBlock() && j < |cells|
    ensures Cells(l, block)[j] == cells[j]
  {
    var at, width := j * l.EntrySize(), l.EntrySize();
    assert at + width <= |Flat(cells)| && Flat(cells)[at..at + width] == cells[j] by { FlatAt(cells, width, j); }
    FrontSlice(Flat(cells), padding, at, width);
    CellAt(l, block, j, at);
  }

  lemma FrontSlice<T>(front: seq<T>, back: seq<T>, at: nat, n: nat)
    requires at + n <= |front|
    ensures (front + back)[at..at + n] == front[at..at + n]
  {
  }

  lemma CellAt(l: Layout, block: seq<byte>, j: nat, at: nat)
    requires l.EntrySize() > 0 && |block| == l.blockSize && j < l.PerBlock() && at == j * l.EntrySize()
    ensures at + l.EntrySize() <= |block| && Cells(l, block)[j] == block[at..at + l.EntrySize()]
  {
    EntryFits(l, j);
    assert Cells(l, block)[j] == EntryAt(l, block, j);
  }

  lemma {:induction false} BlockReadsBack(f: Format, records: seq<Record>)
    requires f.Usable() && BlockFitsIn(f, records)
    ensures Used(f.With(0), Cells(f.With(0), BlockBytes(f, records))) == records
  {
    var l, b := f.With(0), BlockBytes(f, records);
    var cells := Padded(f, records, l.PerBlock());
    forall j | 0 <= j < l.PerBlock()
      ensures Cells(l, b)[j] == cells[j]
    {
      CellReadsBack(l, cells, b, Zeros(l.blockSize - |Flat(cells)|), j);
    }
    assert Cells(l, b) == cells;
    PaddedReadsBack(f, records, l.PerBlock());
  }

  /** The number of blocks does not matter to what is in one. */
  lemma SameCells(f: Format, n: nat, block: seq<byte>)
    requires f.Usable() && |block| == f.With(0).blockSize
    ensures Used(f.With(n), Cells(f.With(n), block)) == Used(f.With(0), Cells(f.With(0), block))
  {
    assert Cells(f.With(n), block) == Cells(f.With(0), block);
    SameUsed(f, n, Cells(f.With(0), block));
  }

  lemma SameDecode(f: Format, n: nat, cell: seq<byte>)
    requires |cell| == f.With(0).EntrySize()
    ensures |cell| == f.With(n).EntrySize() && Decode(f.With(n), cell) == Decode(f.With(0), cell)
  {
  }

  lemma {:induction false} SameUsed(f: Format, n: nat, cells: seq<seq<byte>>)
    requires AreCells(f.With(0), cells)
    ensures Used(f.With(n), cells) == Used(f.With(0), cells)
  {
    if cells != [] {
      SameUsed(f, n, cells[1..]);
      SameDecode(f, n, cells[0]);
    }
  }

  // ----- the file -----

  lemma WholeSize(l: Layout, blocks: seq<seq<byte>>, lastKeys: seq<byte>, hashes: seq<seq<byte>>, footer: seq<byte>)
    requires AllOf(blocks, l.blockSize) && |lastKeys| == |blocks| * l.keyBytes
    requires AllOf(hashes, l.checksum) && |hashes| == |blocks|
    ensures |Whole(blocks, lastKeys, hashes, footer)| == |blocks| * l.Share() + |footer|
    ensures Whole(blocks, lastKeys, hashes, footer)[|blocks| * l.Share()..] == footer
  {
    FlatSize(blocks, l.blockSize);
    FlatSize(hashes, l.checksum);
    Distribute(|blocks|, l.blockSize, l.keyBytes, l.checksum);
  }

  lemma FooterFields(f: Format, rest: Rest, file: seq<byte>, end: nat)
    requires f.Usable() && |rest.tocHash| == f.checksum && |rest.versions| == 3 && |rest.tail| == 5 + f.checksum
    requires end <= |file| && file[end..] == Footer(f, rest)
    ensures |file| == end + FooterSize(f.checksum)
    ensures LayoutOf(file, f.checksum) == Describe(end, f.checksum, f.blockSizeKb, f.offsetBytes, f.sizeBytes, f.keyBytes)
  {
    var footer, at := Footer(f, rest), f.checksum;
    assert footer[at + 3] == f.blockSizeKb && footer[at + 4] == f.offsetBytes;
    assert footer[at + 5] == f.sizeBytes && footer[at + 6] == f.keyBytes;
    forall k | 0 <= k < |footer| ensures file[end + k] == footer[k] { assert file[end..][k] == file[end + k]; }
  }

  lemma BlocksCounted(f: Format, n: nat)
    requires f.Usable()
    ensures Describe(n * f.With(0).Share(), f.checksum, f.blockSizeKb, f.offsetBytes, f.sizeBytes, f.keyBytes) == f.With(n)
  {
    DivModUnique(n * f.With(0).Share(), f.With(0).Share(), n, 0);
  }

  /** The file as it may be found: other bytes may stand where the blocks were written. */
  ghost function Found(md5: Digest, f: Format, blocks: seq<seq<Record>>, present: seq<seq<byte>>, rest: Rest): seq<byte>
    requires IsDigest(md5) && Writable(f, blocks)
  {
    Whole(present, rest.lastKeys, Hashes(md5, f, AllBlocks(f, blocks)), Footer(f, rest))
  }

  /** Each block is there, or one whose digest is not the stored hash. */
  ghost predicate Noticeable(md5: Digest, f: Format, blocks: seq<seq<Record>>, present: seq<seq<byte>>)
    requires IsDigest(md5) && Writable(f, blocks)
  {
    && |present| == |blocks| && AllOf(present, f.With(0).blockSize)
    && forall i | 0 <= i < |blocks| ::
      present[i] == BlockBytes(f, blocks[i]) || md5(present[i])[..f.checksum] != md5(BlockBytes(f, blocks[i]))[..f.checksum]
  }

  /** The records of the blocks that are there. */
  function Remaining(f: Format, blocks: seq<seq<Record>>, present: seq<seq<byte>>): seq<Record>
    requires Writable(f, blocks) && |present| == |blocks|
  {
    if blocks == [] then []
    else (if present[0] == BlockBytes(f, blocks[0]) then blocks[0] else []) + Remaining(f, blocks[1..], present[1..])
  }

  /** The footer says what the layout is, and the length of the file how many blocks there are. */
  lemma FoundLayout(md5: Digest, f: Format, blocks: seq<seq<Record>>, present: seq<seq<byte>>, rest: Rest)
    requires IsDigest(md5) && Writable(f, blocks) && RestFits(f, rest, |blocks|)
    requires |present| == |blocks| && AllOf(present, f.With(0).blockSize)
    ensures var file, end := Found(md5, f, blocks, present, rest), |blocks| * f.With(0).Share();
      && |file| == end + FooterSize(f.checksum) && file[end..] == Footer(f, rest)
      && LayoutOf(file, f.checksum) == f.With(|blocks|)
  {
    var l := f.With(0);
    WholeSize(l, present, rest.lastKeys, Hashes(md5, f, AllBlocks(f, blocks)), Footer(f, rest));
    FooterFields(f, rest, Found(md5, f, blocks, present, rest), |blocks| * l.Share());
    BlocksCounted(f, |blocks|);
  }

  lemma FileLayout(md5: Digest, f: Format, blocks: seq<seq<Record>>, rest: Rest)
    requires IsDigest(md5) && Writable(f, blocks) && RestFits(f, rest, |blocks|)
    ensures var file, end := File(md5, f, blocks, rest), |blocks| * f.With(0).Share();
      && |file| == end + FooterSize(f.checksum) && file[end..] == Footer(f, rest)
      && LayoutOf(file, f.checksum) == f.With(|blocks|)
  {
    FoundLayout(md5, f, blocks, AllBlocks(f, blocks), rest);
  }

  lemma WholeBlock(l: Layout, blocks: seq<seq<byte>>, back: seq<byte>, i: nat)
    requires AllOf(blocks, l.blockSize) && |blocks| == l.blocks && i < l.blocks && l.In(Flat(blocks) + back)
    ensures BlockAt(l, Flat(blocks) + back, i) == blocks[i]
  {
    FlatAt(blocks, l.blockSize, i);
    BlockFits(l, Flat(blocks) + back, i);
    assert Flat(blocks) + back == [] + Flat(blocks) + back;
    Within([], Flat(blocks), back, Flat(blocks) + back, i * l.blockSize, l.blockSize);
  }

  lemma WholeHash(l: Layout, front: seq<byte>, hashes: seq<seq<byte>>, back: seq<byte>, i: nat)
    requires |front| == l.HashesAt() && AllOf(hashes, l.checksum) && |hashes| == l.blocks && i < l.blocks
    requires l.In(front + Flat(hashes) + back)
    ensures HashAt(l, front + Flat(hashes) + back, i) == hashes[i]
  {
    FlatAt(hashes, l.checksum, i);
    BlockFits(l, front + Flat(hashes) + back, i);
    Within(front, Flat(hashes), back, front + Flat(hashes) + back, i * l.checksum, l.checksum);
  }

  lemma WholeSection(l: Layout, blocks: seq<seq<byte>>, lastKeys: seq<byte>, hashes: seq<seq<byte>>, footer: seq<byte>, i: nat)
    requires AllOf(blocks, l.blockSize) && |blocks| == l.blocks && |lastKeys| == l.blocks * l.keyBytes
    requires AllOf(hashes, l.checksum) && |hashes| == l.blocks && i < l.blocks
    requires l.In(Whole(blocks, lastKeys, hashes, footer))
    ensures Sections(l, Whole(blocks, lastKeys, hashes, footer))[i] == Section(blocks[i], hashes[i])
  {
    FlatSize(blocks, l.blockSize);
    Regroup(Flat(blocks), lastKeys, Flat(hashes), footer);
    WholeBlock(l, blocks, lastKeys + Flat(hashes) + footer, i);
    WholeHash(l, Flat(blocks) + lastKeys, hashes, footer, i);
  }

  lemma SectionReadsBack(md5: Digest, f: Format, n: nat, records: seq<Record>, s: Section)
    requires IsDigest(md5) && f.Usable() && BlockFitsIn(f, records) && IsSection(f.With(n), s)
    requires s.hash == md5(BlockBytes(f, records))[..f.checksum]
    requires s.block == BlockBytes(f, records) || md5(s.block)[..f.checksum] != s.hash
    ensures Contribution(md5, f.With(n), s) == if s.block == BlockBytes(f, records) then records else []
  {
    SameCells(f, n, s.block);
    BlockReadsBack(f, records);
  }

  lemma {:induction false} SectionsReadBack(md5: Digest, f: Format, n: nat, blocks: seq<seq<Record>>, present: seq<seq<byte>>,
                                            sections: seq<Section>)
    requires IsDigest(md5) && Writable(f, blocks) && Noticeable(md5, f, blocks, present)
    requires |sections| == |blocks| && AreSections(f.With(n), sections)
    requires forall i | 0 <= i < |blocks| :: sections[i] == Section(present[i], md5(BlockBytes(f, blocks[i]))[..f.checksum])
    ensures Records(md5, f.With(n), sections) == Remaining(f, blocks, present)
  {
    if blocks != [] {
      assert sections[0] in sections && blocks[0] in blocks;
      SectionReadsBack(md5, f, n, blocks[0], sections[0]);
      SectionsReadBack(md5, f, n, blocks[1..], present[1..], sections[1..]);
    }
  }

  lemma FoundRecords(md5: Digest, f: Format, blocks: seq<seq<Record>>, present: seq<seq<byte>>, rest: Rest)
    requires IsDigest(md5) && Writable(f, blocks) && RestFits(f, rest, |blocks|) && Noticeable(md5, f, blocks, present)
    requires f.With(|blocks|).In(Found(md5, f, blocks, present, rest))
    ensures Records(md5, f.With(|blocks|), Sections(f.With(|blocks|), Found(md5, f, blocks, present, rest)))
         == Remaining(f, blocks, present)
  {
    var l, all := f.With(|blocks|), AllBlocks(f, blocks);
    var hashes := Hashes(md5, f, all);
    var sections := Sections(l, Found(md5, f, blocks, present, rest));
    forall i | 0 <= i < |blocks|
      ensures sections[i] == Section(present[i], md5(BlockBytes(f, blocks[i]))[..f.checksum])
    {
      WholeSection(l, present, rest.lastKeys, hashes, Footer(f, rest), i);
      assert hashes[i] == md5(all[i])[..f.checksum];
    }
    SectionsReadBack(md5, f, |blocks|, blocks, present, sections);
  }

  /** No longer footer has the digest of the one that was written. */
  ghost predicate Unambiguous(md5: Digest, file: seq<byte>, hash: seq<byte>, checksum: nat) {
    forall larger | checksum < larger <= LARGEST_CHECKSUM :: !Matches(md5, hash, file, larger)
  }

  /** A block whose digest is not the stored hash is passed over: reading the file gives the records of the other blocks, in
      order. */
  lemma DamagedFileReadsBack(md5: Digest, f: Format, blocks: seq<seq<Record>>, present: seq<seq<byte>>, rest: Rest)
    requires IsDigest(md5) && Writable(f, blocks) && RestFits(f, rest, |blocks|) && Noticeable(md5, f, blocks, present)
    requires Unambiguous(md5, Found(md5, f, blocks, present, rest), md5(Footer(f, rest)), f.checksum)
    ensures var file := Found(md5, f, blocks, present, rest);
      Parse(md5, md5(Footer(f, rest)), file) == if |file| < 44 then Stuck else Index(f.keyBytes, Remaining(f, blocks, present))
  {
    var file := Found(md5, f, blocks, present, rest);
    FoundLayout(md5, f, blocks, present, rest);
    if |file| >= 44 {
      FooterFound(md5, f, blocks, present, rest);
      LayoutFits(file, f.checksum);
      FoundRecords(md5, f, blocks, present, rest);
    }
  }

  lemma FooterFound(md5: Digest, f: Format, blocks: seq<seq<Record>>, present: seq<seq<byte>>, rest: Rest)
    requires IsDigest(md5) && Writable(f, blocks) && RestFits(f, rest, |blocks|)
    requires |present| == |blocks| && AllOf(present, f.With(0).blockSize)
    requires Unambiguous(md5, Found(md5, f, blocks, present, rest), md5(Footer(f, rest)), f.checksum)
    requires |Found(md5, f, blocks, present, rest)| >= 44
    ensures LargestMatch(md5, md5(Footer(f, rest)), Found(md5, f, blocks, present, rest), LARGEST_CHECKSUM) == f.checksum
  {
    var file, hash := Found(md5, f, blocks, present, rest), md5(Footer(f, rest));
    FoundLayout(md5, f, blocks, present, rest);
    assert file[|file| - FooterSize(f.checksum)..] == Footer(f, rest);
    assert Matches(md5, hash, file, f.checksum);
  }

  lemma {:induction false} AllRemain(f: Format, blocks: seq<seq<Record>>)
    requires Writable(f, blocks)
    ensures Remaining(f, blocks, AllBlocks(f, blocks)) == Together(blocks)
  {
    if blocks != [] {
      AllRemain(f, blocks[1..]);
      assert AllBlocks(f, blocks)[1..] == AllBlocks(f, blocks[1..]);
    }
  }

  /** Reading a written file that is long enough gives back every record, block after block. */
  lemma FileReadsBack(md5: Digest, f: Format, blocks: seq<seq<Record>>, rest: Rest)
    requires IsDigest(md5) && Writable(f, blocks) && RestFits(f, rest, |blocks|)
    requires Unambiguous(md5, File(md5, f, blocks, rest), md5(Footer(f, rest)), f.checksum)
    ensures Parse(md5, md5(Footer(f, rest)), File(md5, f, blocks, rest)) ==
      if |File(md5, f, blocks, rest)| < 44 then Stuck else Index(f.keyBytes, Together(blocks))
  {
    DamagedFileReadsBack(md5, f, blocks, AllBlocks(f, blocks), rest);
    AllRemain(f, blocks);
  }

  /** With a block of some size the file is long enough; an index without blocks is read only if its checksums are full. */
  lemma WhenLongEnough(md5: Digest, f: Format, blocks: seq<seq<Record>>, rest: Rest)
    requires IsDigest(md5) && Writable(f, blocks) && RestFits(f, rest, |blocks|)
    ensures blocks != [] && f.blockSizeKb > 0 ==> |File(md5, f, blocks, rest)| >= 44
    ensures blocks == [] ==> (|File(md5, f, blocks, rest)| >= 44 <==> f.checksum == LARGEST_CHECKSUM)
  {
    FileLayout(md5, f, blocks, rest);
    if blocks != [] { ProductGrows(1, |blocks|, f.With(0).Share()); }
  }
}
