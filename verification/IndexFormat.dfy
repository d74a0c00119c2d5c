/** Archive indices: blocks of entries, a table of contents of keys and hashes, and a footer found by its digest. */
module IndexFormat {
  import opened Arithmetic
  import opened Bytes

  type Digest = seq<byte> -> seq<byte>

  /** Foreign code: an MD5 digest has sixteen bytes. */
  ghost predicate IsDigest(md5: Digest) {
    forall s: seq<byte> :: |md5(s)| == 16
  }

  const LARGEST_CHECKSUM: nat := 16

  function FooterSize(checksum: nat): nat {
    2 * checksum + 12
  }

  // ----- the search for the footer -----

  datatype Search = Looking(checksum: nat) | Found(checksum: nat) | NotFound

  /** One turn of the search.  When the stream is too short for the footer, the loop goes on without a smaller guess. */
  function Turn(md5: Digest, hash: seq<byte>, data: seq<byte>, s: Search): Search {
    if !s.Looking? then s
    else if s.checksum == 0 then NotFound
    else if FooterSize(s.checksum) > |data| then s
    else if md5(data[|data| - FooterSize(s.checksum)..]) == hash then Found(s.checksum)
    else Looking(s.checksum - 1)
  }

  function Turns(md5: Digest, hash: seq<byte>, data: seq<byte>, n: nat): Search {
    if n == 0 then Looking(LARGEST_CHECKSUM) else Turn(md5, hash, data, Turns(md5, hash, data, n - 1))
  }

  predicate Matches(md5: Digest, hash: seq<byte>, data: seq<byte>, checksum: nat) {
    FooterSize(checksum) <= |data| && md5(data[|data| - FooterSize(checksum)..]) == hash
  }

  /** The largest checksum size, up to a bound, whose footer has the digest; zero when there is none. */
  function LargestMatch(md5: Digest, hash: seq<byte>, data: seq<byte>, bound: nat): (c: nat)
    ensures c <= bound && (c > 0 ==> Matches(md5, hash, data, c))
    ensures forall other | c < other <= bound :: !Matches(md5, hash, data, other)
  {
    if bound == 0 || Matches(md5, hash, data, bound) then bound else LargestMatch(md5, hash, data, bound - 1)
  }

  function Answer(checksum: nat): Search {
    if checksum == 0 then NotFound else Found(checksum)
  }

  lemma {:induction false} AfterTurns(md5: Digest, hash: seq<byte>, data: seq<byte>, n: nat)
    requires |data| >= FooterSize(LARGEST_CHECKSUM)
    ensures var best := LargestMatch(md5, hash, data, LARGEST_CHECKSUM);
      Turns(md5, hash, data, n) == if n < LARGEST_CHECKSUM - best + 1 then Looking(LARGEST_CHECKSUM - n) else Answer(best)
  {
    var best := LargestMatch(md5, hash, data, LARGEST_CHECKSUM);
    if n > 0 {
      AfterTurns(md5, hash, data, n - 1);
      if n - 1 < LARGEST_CHECKSUM - best + 1 {
        assert LARGEST_CHECKSUM - (n - 1) > best ==> !Matches(md5, hash, data, LARGEST_CHECKSUM - (n - 1));
      }
    }
  }

  lemma {:induction false} ShortStreamsStay(md5: Digest, hash: seq<byte>, data: seq<byte>, n: nat)
    requires |data| < FooterSize(LARGEST_CHECKSUM)
    ensures Turns(md5, hash, data, n) == Looking(LARGEST_CHECKSUM)
  {
    if n > 0 { ShortStreamsStay(md5, hash, data, n - 1); }
  }

  /** The search ends exactly for streams that hold the largest footer; it then finds the largest footer that matches. */
  lemma SearchEnds(md5: Digest, hash: seq<byte>, data: seq<byte>)
    ensures (exists n :: !Turns(md5, hash, data, n).Looking?) <==> |data| >= 44
    ensures |data| >= 44 ==> Turns(md5, hash, data, 17) == Answer(LargestMatch(md5, hash, data, LARGEST_CHECKSUM))
  {
    if |data| >= 44 {
      AfterTurns(md5, hash, data, 17);
    } else {
      forall n: nat ensures Turns(md5, hash, data, n).Looking? { ShortStreamsStay(md5, hash, data, n); }
    }
  }

  /** The answer in terms of the bytes: a footer of twice its checksums and twelve bytes, at the end, with the digest that is
      asked for; and no longer one with up to sixteen bytes of checksum has it. */
  lemma AnswerIs(md5: Digest, hash: seq<byte>, data: seq<byte>)
    requires |data| >= 44
    ensures match Turns(md5, hash, data, 17)
      case Found(c) => 0 < c <= 16 && md5(data[|data| - (2 * c + 12)..]) == hash
        && forall other | c < other <= 16 :: md5(data[|data| - (2 * other + 12)..]) != hash
      case NotFound => forall other | 0 < other <= 16 :: md5(data[|data| - (2 * other + 12)..]) != hash
      case Looking(_) => false
  {
    SearchEnds(md5, hash, data);
    var c := LargestMatch(md5, hash, data, LARGEST_CHECKSUM);
    forall other | c < other <= 16
      ensures md5(data[|data| - (2 * other + 12)..]) != hash
    {
      assert !Matches(md5, hash, data, other);
    }
  }

  // ----- the layout the footer describes -----

  datatype Layout = Layout(blockSize: nat, keyBytes: nat, sizeBytes: nat, offsetBytes: nat, checksum: nat, blocks: nat) {
    function EntrySize(): nat {
      keyBytes + sizeBytes + offsetBytes
    }

    function PerBlock(): nat
      requires EntrySize() > 0
    {
      blockSize / EntrySize()
    }

    /** What one block takes: its data, its last key and its hash. */
    function Share(): nat {
      blockSize + (keyBytes + checksum)
    }

    predicate In(data: seq<byte>) {
      blocks * Share() <= |data| && 0 < checksum <= LARGEST_CHECKSUM && EntrySize() > 0
    }

    function HashesAt(): nat {
      blocks * blockSize + blocks * keyBytes
    }
  }

  /** The properties computed from the footer's fields and from how much comes before the footer. */
  function Describe(length: nat, checksum: nat, blockSizeKb: byte, offsetBytes: byte, sizeBytes: byte, keyBytes: byte): Layout
    requires 0 < checksum
  {
    var blockSize := 1024 * (blockSizeKb as int);
    Layout(blockSize, keyBytes, sizeBytes, offsetBytes, checksum, length / (blockSize + (keyBytes as int + checksum)))
  }

  function LayoutOf(data: seq<byte>, checksum: nat): Layout
    requires 0 < checksum && FooterSize(checksum) <= |data|
  {
    var end := |data| - FooterSize(checksum);
    var at := end + checksum;
    Describe(end, checksum, data[at + 3], data[at + 4], data[at + 5], data[at + 6])
  }

  lemma LayoutFits(data: seq<byte>, checksum: nat)
    requires 0 < checksum <= LARGEST_CHECKSUM && FooterSize(checksum) <= |data|
    ensures var l := LayoutOf(data, checksum); l.blocks * l.Share() <= |data| - FooterSize(checksum)
  {
    var l := LayoutOf(data, checksum);
    QuotientFits(|data| - FooterSize(checksum), l.Share());
  }

  lemma EntryFits(l: Layout, j: nat)
    requires l.EntrySize() > 0 && j < l.PerBlock()
    ensures j * l.EntrySize() + l.EntrySize() <= l.blockSize
  {
    RowFits(j, l.PerBlock(), l.EntrySize());
    QuotientFits(l.blockSize, l.EntrySize());
  }

  lemma BlockFits(l: Layout, data: seq<byte>, i: nat)
    requires l.In(data) && i < l.blocks
    ensures i * l.blockSize + l.blockSize <= l.blocks * l.blockSize <= |data|
    ensures l.HashesAt() + (i * l.checksum + l.checksum) <= |data|
  {
    RowFits(i, l.blocks, l.blockSize);
    RowFits(i, l.blocks, l.checksum);
    Distribute(l.blocks, l.blockSize, l.keyBytes, l.checksum);
  }

  // ----- what is in it -----

  datatype Record = Record(key: seq<byte>, size: nat, offset: nat)

  function BlockAt(l: Layout, data: seq<byte>, i: nat): (b: seq<byte>)
    requires l.In(data) && i < l.blocks
    ensures |b| == l.blockSize
  {
    BlockFits(l, data, i);
    data[i * l.blockSize..i * l.blockSize + l.blockSize]
  }

  function HashAt(l: Layout, data: seq<byte>, i: nat): (h: seq<byte>)
    requires l.In(data) && i < l.blocks
    ensures |h| == l.checksum
  {
    BlockFits(l, data, i);
    data[l.HashesAt() + i * l.checksum..l.HashesAt() + (i * l.checksum + l.checksum)]
  }

  /** An entry: its key, then two big-endian numbers of which 64 bits are kept. */
  function Decode(l: Layout, e: seq<byte>): Record
    requires |e| == l.EntrySize()
  {
    Record(e[..l.keyBytes], BigEndian(e[l.keyBytes..l.keyBytes + l.sizeBytes]) % TWO_TO_64,
           BigEndian(e[l.keyBytes + l.sizeBytes..]) % TWO_TO_64)
  }

  function EntryAt(l: Layout, block: seq<byte>, j: nat): (e: seq<byte>)
    requires l.EntrySize() > 0 && |block| == l.blockSize && j < l.PerBlock()
    ensures |e| == l.EntrySize()
  {
    EntryFits(l, j);
    block[j * l.EntrySize()..j * l.EntrySize() + l.EntrySize()]
  }

  predicate AllZero(key: seq<byte>) {
    forall b | b in key :: b == 0
  }

  /** A key of zeros marks an unused entry. */
  function IfUsed(r: Record): seq<Record> {
    if AllZero(r.key) then [] else [r]
  }

  /** The entries of a block. */
  function Cells(l: Layout, block: seq<byte>): (cells: seq<seq<byte>>)
    requires l.EntrySize() > 0 && |block| == l.blockSize
    ensures |cells| == l.PerBlock() && AreCells(l, cells)
  {
    seq(l.PerBlock(), j requires 0 <= j < l.PerBlock() => EntryAt(l, block, j))
  }

  predicate AreCells(l: Layout, cells: seq<seq<byte>>) {
    forall e | e in cells :: |e| == l.EntrySize()
  }

  function Used(l: Layout, cells: seq<seq<byte>>): seq<Record>
    requires AreCells(l, cells)
  {
    if cells == [] then [] else IfUsed(Decode(l, cells[0])) + Used(l, cells[1..])
  }

  /** A block with the hash that the table of contents gives for it. */
  datatype Section = Section(block: seq<byte>, hash: seq<byte>)

  function Sections(l: Layout, data: seq<byte>): (sections: seq<Section>)
    requires l.In(data)
    ensures |sections| == l.blocks && AreSections(l, sections)
  {
    seq(l.blocks, i requires 0 <= i < l.blocks => Section(BlockAt(l, data, i), HashAt(l, data, i)))
  }

  predicate IsSection(l: Layout, s: Section) {
    l.EntrySize() > 0 && l.checksum <= LARGEST_CHECKSUM && |s.block| == l.blockSize
  }

  predicate AreSections(l: Layout, sections: seq<Section>) {
    forall s | s in sections :: IsSection(l, s)
  }

  ghost predicate Intact(md5: Digest, l: Layout, s: Section)
    requires IsDigest(md5) && IsSection(l, s)
  {
    md5(s.block)[..l.checksum] == s.hash
  }

  ghost function Contribution(md5: Digest, l: Layout, s: Section): seq<Record>
    requires IsDigest(md5) && IsSection(l, s)
  {
    if Intact(md5, l, s) then Used(l, Cells(l, s.block)) else []
  }

  ghost function Records(md5: Digest, l: Layout, sections: seq<Section>): seq<Record>
    requires IsDigest(md5) && AreSections(l, sections)
  {
    if sections == [] then [] else Contribution(md5, l, sections[0]) + Records(md5, l, sections[1..])
  }

  /** Stuck: the search never ends.  Undefined: the footer says that entries have no size, and the size is divided by. */
  datatype Index = Stuck | Unrecognised | Undefined | Index(keyBytes: nat, records: seq<Record>)

  ghost function Parse(md5: Digest, hash: seq<byte>, data: seq<byte>): Index
    requires IsDigest(md5)
  {
    if |data| < FooterSize(LARGEST_CHECKSUM) then Stuck
    else
      var checksum := LargestMatch(md5, hash, data, LARGEST_CHECKSUM);
      if checksum == 0 then Unrecognised
      else
        var l := LayoutOf(data, checksum);
        if l.EntrySize() == 0 then Undefined
        else LayoutFits(data, checksum); Index(l.keyBytes, Records(md5, l, Sections(l, data)))
  }

  // ----- which records there are -----

  lemma {:induction false} UsedAre(l: Layout, cells: seq<seq<byte>>, r: Record)
    requires AreCells(l, cells)
    ensures r in Used(l, cells) <==> !AllZero(r.key) && exists e | e in cells :: Decode(l, e) == r
  {
    if cells != [] { UsedAre(l, cells[1..], r); }
  }

  /** The block has its digest in the table of contents, and the record is that of an entry with a byte other than zero in
      its key. */
  ghost predicate Stored(md5: Digest, l: Layout, s: Section, r: Record)
    requires IsDigest(md5) && IsSection(l, s)
  {
    && md5(s.block)[..l.checksum] == s.hash
    && (exists b | b in r.key :: b != 0) && exists e | e in Cells(l, s.block) :: Decode(l, e) == r
  }

  /** The records are those of the used entries of the intact blocks, and no others. */
  lemma {:induction false} RecordsAre(md5: Digest, l: Layout, sections: seq<Section>, r: Record)
    requires IsDigest(md5) && AreSections(l, sections)
    ensures r in Records(md5, l, sections) <==> exists s | s in sections :: Stored(md5, l, s, r)
  {
    if sections != [] {
      var s := sections[0];
      assert s in sections;
      UsedAre(l, Cells(l, s.block), r);
      assert r in Contribution(md5, l, s) <==> Stored(md5, l, s, r);
      RecordsAre(md5, l, sections[1..], r);
    }
  }

  // ----- one at a time -----

  lemma {:induction false} UsedAppend(l: Layout, cells: seq<seq<byte>>, e: seq<byte>)
    requires AreCells(l, cells) && |e| == l.EntrySize()
    ensures Used(l, cells + [e]) == Used(l, cells) + IfUsed(Decode(l, e))
  {
    if cells == [] {
      assert cells + [e] == [e] && Used(l, [e][1..]) == [];
    } else {
      assert (cells + [e])[1..] == cells[1..] + [e];
      UsedAppend(l, cells[1..], e);
    }
  }

  lemma UsedNext(l: Layout, cells: seq<seq<byte>>, j: nat)
    requires AreCells(l, cells) && j < |cells|
    ensures Used(l, cells[..j + 1]) == Used(l, cells[..j]) + IfUsed(Decode(l, cells[j]))
  {
    assert cells[..j + 1] == cells[..j] + [cells[j]];
    UsedAppend(l, cells[..j], cells[j]);
  }

  lemma {:induction false} RecordsAppend(md5: Digest, l: Layout, sections: seq<Section>, s: Section)
    requires IsDigest(md5) && AreSections(l, sections) && IsSection(l, s)
    ensures Records(md5, l, sections + [s]) == Records(md5, l, sections) + Contribution(md5, l, s)
  {
    if sections == [] {
      assert sections + [s] == [s] && Records(md5, l, [s][1..]) == [];
    } else {
      assert (sections + [s])[1..] == sections[1..] + [s];
      RecordsAppend(md5, l, sections[1..], s);
    }
  }

  lemma RecordsNext(md5: Digest, l: Layout, sections: seq<Section>, i: nat)
    requires IsDigest(md5) && AreSections(l, sections) && i < |sections|
    ensures sections[i] in sections
    ensures Records(md5, l, sections[..i + 1]) == Records(md5, l, sections[..i]) + Contribution(md5, l, sections[i])
  {
    assert sections[..i + 1] == sections[..i] + [sections[i]];
    RecordsAppend(md5, l, sections[..i], sections[i]);
  }
}
