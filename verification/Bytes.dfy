/** Bytes and the integers read from them. */
module Bytes {

  type byte = b: int | 0 <= b < 256

  datatype Option<+T> = None | Some(value: T)

  const TWO_TO_32: int := 0x1_0000_0000
  const TWO_TO_64: int := 0x1_0000_0000_0000_0000

  /** Big-endian value of all the bytes. */
  function BigEndian(bytes: seq<byte>): (v: nat)
    decreases |bytes|
  {
    if bytes == [] then 0 else BigEndian(bytes[..|bytes| - 1]) * 256 + bytes[|bytes| - 1]
  }

  /** The `n` big-endian bytes of a value. */
  function BigEndianBytes(v: nat, n: nat): (bytes: seq<byte>)
    ensures |bytes| == n
  {
    if n == 0 then [] else BigEndianBytes(v / 256, n - 1) + [v % 256]
  }

  function Pow256(n: nat): (v: nat)
    ensures v >= 1
  {
    if n == 0 then 1 else 256 * Pow256(n - 1)
  }

  /** Writing a value that fits and reading it back. */
  lemma {:induction false} BigEndianRoundTrip(v: nat, n: nat)
    requires v < Pow256(n)
    ensures BigEndian(BigEndianBytes(v, n)) == v
  {
    if n > 0 {
      BigEndianRoundTrip(v / 256, n - 1);
      var bytes := BigEndianBytes(v, n);
      assert bytes[..n - 1] == BigEndianBytes(v / 256, n - 1);
    }
  }

  function Be32(data: seq<byte>, at: nat): (v: nat)
    requires at + 4 <= |data|
    ensures v < TWO_TO_32
  {
    ((data[at] as int * 256 + data[at + 1] as int) * 256 + data[at + 2] as int) * 256 + data[at + 3] as int
  }

  lemma FourDigits(v: nat)
    requires v < TWO_TO_32
    ensures v / 256 / 256 / 256 < 256
    ensures v == ((v / 256 / 256 / 256 * 256 + v / 256 / 256 % 256) * 256 + v / 256 % 256) * 256 + v % 256
  {
  }

  function Bytes32(v: nat): (b: seq<byte>)
    requires v < TWO_TO_32
    ensures |b| == 4 && Be32(b, 0) == v
  {
    FourDigits(v);
    [v / 256 / 256 / 256, v / 256 / 256 % 256, v / 256 % 256, v % 256]
  }

  lemma Be32At(data: seq<byte>, at: nat, v: nat)
    requires v < TWO_TO_32 && at + 4 <= |data| && data[at..at + 4] == Bytes32(v)
    ensures Be32(data, at) == v
  {
    var b := data[at..at + 4];
    assert data[at] == b[0] && data[at + 1] == b[1] && data[at + 2] == b[2] && data[at + 3] == b[3];
  }

  lemma SliceOfSlice<T>(s: seq<T>, a: nat, b: nat, c: nat, d: nat)
    requires a <= b <= |s| && c <= d <= b - a
    ensures s[a..b][c..d] == s[a + c..a + d]
  {
    var t := s[a..b];
    forall i | 0 <= i < d - c
      ensures t[c..d][i] == s[a + c..a + d][i]
    {
      assert t[c..d][i] == t[c + i] == s[a + (c + i)];
    }
  }

  lemma SplitAt<T>(data: seq<T>, at: nat, end: nat, first: seq<T>, rest: seq<T>)
    requires at <= end <= |data| && data[at..end] == first + rest
    ensures at + |first| <= end && data[at..at + |first|] == first && data[at + |first|..end] == rest
  {
    assert |data[at..end]| == |first| + |rest|;
    SliceOfSlice(data, at, end, 0, |first|);
    SliceOfSlice(data, at, end, |first|, end - at);
    assert (first + rest)[0..|first|] == first && (first + rest)[|first|..end - at] == rest;
  }

  lemma FourAt<T>(data: seq<T>, at: nat, a: seq<T>, b: seq<T>, c: seq<T>, d: seq<T>)
    requires at + |a| + |b| + |c| + |d| <= |data|
    requires data[at..at + |a| + |b| + |c| + |d|] == a + b + c + d
    ensures data[at..at + |a|] == a && data[at + |a|..at + |a| + |b|] == b
    ensures data[at + |a| + |b|..at + |a| + |b| + |c|] == c
    ensures data[at + |a| + |b| + |c|..at + |a| + |b| + |c| + |d|] == d
  {
    var w, n := a + b + c + d, at + |a| + |b| + |c| + |d|;
    SliceOfSlice(data, at, n, 0, |a|);
    SliceOfSlice(data, at, n, |a|, |a| + |b|);
    SliceOfSlice(data, at, n, |a| + |b|, |a| + |b| + |c|);
    SliceOfSlice(data, at, n, |a| + |b| + |c|, |w|);
    assert w[0..|a|] == a && w[|a|..|a| + |b|] == b;
    assert w[|a| + |b|..|a| + |b| + |c|] == c && w[|a| + |b| + |c|..|w|] == d;
  }

  function Zeros(n: nat): seq<byte> {
    seq(n, i => 0)
  }
}
