/** Reading values in the other byte order, by reversing them in place, and reading zero-terminated text. */
module TypedReads {
  import opened Arithmetic
  import opened Bytes
  import opened Concatenation
  import opened MemoryStreams

  function Reversed(s: seq<byte>): (r: seq<byte>)
    ensures |r| == |s| && forall i | 0 <= i < |s| :: r[i] == s[|s| - 1 - i]
  {
    seq(|s|, i requires 0 <= i < |s| => s[|s| - 1 - i])
  }

  lemma RestDivides(n: nat, size: nat)
    requires size > 0 && n % size == 0 && n > 0
    ensures size <= n && (n - size) % size == 0
  {
    if n < size { DivModUnique(n, size, 0, n); }
    var q := n / size;
    assert n == size * q && n - size == size * (q - 1);
    DivModUnique(n - size, size, q - 1, 0);
  }

  /** Every group of `size` bytes reversed. */
  function ReversedGroups(s: seq<byte>, size: nat): (r: seq<byte>)
    requires size > 0 && |s| % size == 0
    ensures |r| == |s|
  {
    if s == [] then [] else RestDivides(|s|, size); Reversed(s[..size]) + ReversedGroups(s[size..], size)
  }

  lemma ReversedTwice(s: seq<byte>)
    ensures Reversed(Reversed(s)) == s
  {
  }

  lemma FirstGroup(first: seq<byte>, rest: seq<byte>, size: nat)
    requires size > 0 && |first| == size && |rest| % size == 0 && |first + rest| % size == 0
    ensures ReversedGroups(first + rest, size) == Reversed(first) + ReversedGroups(rest, size)
  {
    assert (first + rest)[..size] == first && (first + rest)[size..] == rest;
  }

  /** Doing it twice undoes it, so both byte orders are read by the same loop. */
  lemma {:induction false} GroupsTwice(s: seq<byte>, size: nat)
    requires size > 0 && |s| % size == 0
    ensures ReversedGroups(ReversedGroups(s, size), size) == s
    decreases |s|
  {
    if s != [] {
      RestDivides(|s|, size);
      var first, rest := Reversed(s[..size]), ReversedGroups(s[size..], size);
      ReversedTwice(s[..size]);
      GroupsTwice(s[size..], size);
      FirstGroup(first, rest, size);
    }
  }

  /** Value of bytes in the order of a little-endian machine. */
  function LittleEndian(bytes: seq<byte>): nat {
    if bytes == [] then 0 else bytes[0] as int + 256 * LittleEndian(bytes[1..])
  }

  /** What the reversal is for: a little-endian machine sees the big-endian value. */
  lemma {:induction false} ReversalReadsBigEndian(bytes: seq<byte>)
    ensures LittleEndian(Reversed(bytes)) == BigEndian(bytes)
    decreases |bytes|
  {
    if bytes != [] {
      assert Reversed(bytes)[1..] == Reversed(bytes[..|bytes| - 1]);
      ReversalReadsBigEndian(bytes[..|bytes| - 1]);
    }
  }

  /** `std::ranges::reverse` on a part of the span. */
  method ReverseRange(span: array<byte>, begin: nat, end: nat)
    requires begin <= end <= span.Length
    modifies span
    ensures forall i | 0 <= i < span.Length :: span[i] == if begin <= i < end then old(span[begin + end - 1 - i]) else old(span[i])
  {
    var low, high := begin, end;
    while low + 1 < high
      invariant begin <= low <= end && begin <= high <= end && low - begin == end - high && low <= high + 1
      invariant forall i | 0 <= i < span.Length ::
        span[i] == if begin <= i < low || high <= i < end then old(span[begin + end - 1 - i]) else old(span[i])
    {
      high := high - 1;
      span[low], span[high] := span[high], span[low];
      low := low + 1;
    }
  }

  /** One element of the span reversed: what was done, the element, and the rest. */
  method ReverseElement(span: array<byte>, begin: nat, tail: nat, ghost done: seq<byte>, ghost group: seq<byte>, ghost rest: seq<byte>)
    requires span[..] == done + (group + rest) && |done| == begin && |group| == tail - begin && begin <= tail
    modifies span
    ensures span[..] == (done + Reversed(group)) + rest
  {
    ghost var before := span[..];
    assert |before| == |done| + |group| + |rest|;
    ReverseRange(span, begin, tail);
    assert forall i | begin <= i < tail :: before[i] == group[i - begin];
  }

  lemma NextGroup(left: seq<byte>, size: nat, done: seq<byte>, rest: seq<byte>)
    requires left != [] && size > 0 && |left| % size == 0
    ensures size <= |left| && |left[size..]| % size == 0
    ensures done + ReversedGroups(left, size) == (done + Reversed(left[..size])) + ReversedGroups(left[size..], size)
    ensures left + rest == left[..size] + (left[size..] + rest)
  {
    RestDivides(|left|, size);
    Associates(done, Reversed(left[..size]), ReversedGroups(left[size..], size));
    assert left == left[..size] + left[size..];
    Associates(left[..size], left[size..], rest);
  }

  /** The elements before `begin` are reversed, the others are as they were. */
  ghost predicate Halfway(span: seq<byte>, done: seq<byte>, left: seq<byte>, rest: seq<byte>, begin: nat, size: nat, goal: seq<byte>) {
    && size > 0 && |done| == begin && |left| % size == 0
    && span == done + (left + rest) && goal == done + ReversedGroups(left, size)
  }

  /** One turn of the loop. */
  method NextElement(span: array<byte>, begin: nat, tail: nat, ghost done: seq<byte>, ghost left: seq<byte>, ghost rest: seq<byte>,
                     ghost goal: seq<byte>)
    returns (ghost more: seq<byte>, ghost others: seq<byte>)
    requires begin < tail && left != [] && Halfway(span[..], done, left, rest, begin, tail - begin, goal)
    modifies span
    ensures |others| == |left| - (tail - begin) && Halfway(span[..], more, others, rest, tail, tail - begin, goal)
  {
    var size := tail - begin;
    NextGroup(left, size, done, rest);
    more, others := done + Reversed(left[..size]), left[size..];
    ReverseElement(span, begin, tail, done, left[..size], others + rest);
  }

  /** The loop of `_ReadSpan` over the bytes that were read, when they are whole elements. */
  method ReverseElements(span: array<byte>, readCount: nat, elementSize: nat)
    requires 0 < elementSize && readCount <= span.Length && readCount % elementSize == 0
    modifies span
    ensures span[..] == ReversedGroups(old(span[..readCount]), elementSize) + old(span[readCount..])
  {
    var begin := 0;
    ghost var done, left, rest := [], span[..readCount], span[readCount..];
    ghost var goal := ReversedGroups(left, elementSize);
    while begin != readCount
      invariant 0 <= begin <= readCount && |left| == readCount - begin
      invariant Halfway(span[..], done, left, rest, begin, elementSize, goal)
      decreases readCount - begin
    {
      var tail := begin + elementSize;
      done, left := NextElement(span, begin, tail, done, left, rest, goal);
      begin := tail;
    }
    assert left == [] && done + ([] + rest) == done + rest;
  }

  // ----- zero-terminated text -----

  function UntilZero(s: seq<byte>): seq<byte> {
    if s == [] || s[0] == 0 then [] else [s[0]] + UntilZero(s[1..])
  }

  lemma {:induction false} UntilZeroAt(s: seq<byte>, n: nat)
    requires n < |s| && s[n] == 0 && 0 !in s[..n]
    ensures UntilZero(s) == s[..n]
  {
    if n > 0 {
      assert s[0] == s[..n][0] && s[..n] == [s[0]] + s[1..][..n - 1];
      UntilZeroAt(s[1..], n - 1);
    }
  }

  /** `ReadCString`.  At the end of the stream nothing is read and the last character stays, so without a zero ahead the
      loop appends it for ever; only from an already exhausted stream is nothing read as a zero. */
  method ReadCString(stream: GrowableMemoryStream) returns (value: Option<seq<byte>>)
    requires stream.readCursor <= |stream.data|
    modifies stream`readCursor
    ensures var rest := stream.data[old(stream.readCursor)..];
      && (value.Some? <==> rest == [] || 0 in rest)
      && (value.Some? ==> value.value == UntilZero(rest))
      && (0 in rest ==> stream.readCursor == old(stream.readCursor) + |UntilZero(rest)| + 1)
  {
    var text: seq<byte>, elem: byte := [], 0;
    ghost var rest, start := stream.data[stream.readCursor..], stream.readCursor;
    while true
      invariant start <= stream.readCursor <= |stream.data| && |text| == stream.readCursor - start
      invariant text == rest[..|text|] && (text == [] <==> elem == 0) && 0 !in text
      decreases |stream.data| - stream.readCursor
    {
      var bytes := stream.ReadBytes(1);
      if |bytes| == 0 {
        assert text == rest;
        return if elem != 0 then None else Some(text);
      }
      elem := bytes[0];
      assert rest[|text|] == elem;
      if elem == 0 {
        UntilZeroAt(rest, |text|);
        return Some(text);
      }
      text := text + [elem];
    }
  }
}
