/** One client request: a range of an archive is fetched from one CDN after another until one of them has delivered the
    rest, while a single decoder turns the bytes into the client's output. */
module Failover {
  import opened Bytes
  import opened MemoryStreams
  import opened BlockStream
  import opened Fragmentation
  import opened BlockStreamTransform

  /** What came of asking one CDN: nothing to read, or fragments of a body and then the end of it or a failure. */
  datatype Attempt = Unusable | Delivers(fragments: seq<seq<byte>>, completed: bool)

  /** The bytes a request stands for.  A zero length sends no range at all; a range is inclusive at both ends and ends
      with the archive (section 14.1.2 of RFC 9110). */
  function Requested(archive: seq<byte>, offset: nat, length: nat): seq<byte> {
    if length == 0 then archive
    else
      var last := offset + length - 1;
      var end := if last + 1 <= |archive| then last + 1 else |archive|;
      if offset <= end then archive[offset..end] else []
  }

  /** A CDN answers with the bytes that were asked for, completely or cut off before the last one. */
  ghost predicate Honest(archive: seq<byte>, cdn: (nat, nat) -> Attempt) {
    forall offset: nat, length: nat :: HonestAnswer(Requested(archive, offset, length), cdn(offset, length))
  }

  predicate HonestAnswer(requested: seq<byte>, attempt: Attempt) {
    attempt.Unusable? || (Addressable(attempt.fragments) && Concat(attempt.fragments) <= requested && (attempt.completed <==> Concat(attempt.fragments) == requested))
  }

  predicate CompleteAnswer(attempt: Attempt) {
    attempt.Delivers? && attempt.completed
  }

  /** A CDN that delivers everything that is asked for. */
  ghost predicate Reliable(cdn: (nat, nat) -> Attempt) {
    forall offset: nat, length: nat :: CompleteAnswer(cdn(offset, length))
  }

  lemma HonestHere(archive: seq<byte>, cdn: (nat, nat) -> Attempt, offset: nat, length: nat)
    requires Honest(archive, cdn)
    ensures HonestAnswer(Requested(archive, offset, length), cdn(offset, length))
  {
  }

  lemma ReliableCompletes(cdn: (nat, nat) -> Attempt, offset: nat, length: nat)
    requires Reliable(cdn)
    ensures CompleteAnswer(cdn(offset, length))
  {
  }

  /** The size of a fragment is a std::size_t. */
  predicate Addressable(fragments: seq<seq<byte>>) {
    forall f | f in fragments :: |f| < TWO_TO_64
  }

  /** The same number modulo the width of std::size_t, for sums of two of them. */
  predicate SameModulo(a: int, b: int) {
    a == b || a == b + TWO_TO_64 || a == b - TWO_TO_64
  }

  lemma SplitSlice(archive: seq<byte>, at: nat, x: seq<byte>, y: seq<byte>)
    requires at + |x| + |y| <= |archive| && archive[at..at + |x| + |y|] == x + y
    ensures archive[at..at + |x|] == x && archive[at + |x|..at + |x| + |y|] == y
  {
    var whole := archive[at..at + |x| + |y|];
    assert forall i | 0 <= i < |x| :: archive[at + i] == whole[i] == x[i];
    assert forall i | 0 <= i < |y| :: archive[at + |x| + i] == whole[|x| + i] == y[i];
  }

  /** What is asked for next is the rest of the range, exactly when the range is not used up: after its last byte the
      length is zero, and a request without a range is for the whole archive. */
  lemma RequestedRest(archive: seq<byte>, offset0: nat, length0: nat, offset: nat, length: nat, end: nat)
    requires |archive| < TWO_TO_64 && offset0 <= offset <= end <= |archive|
    requires end == if length0 == 0 then |archive| else offset0 + length0
    requires length0 == 0 ==> offset0 == 0
    requires length < TWO_TO_64 && SameModulo(offset + length, offset0 + length0)
    ensures Requested(archive, offset, length) == archive[offset..end] <==> length0 == 0 || offset < end
  {
    if length0 == 0 && offset == 0 {
      assert archive[0..|archive|] == archive;
    } else if length0 == 0 {
      assert length == TWO_TO_64 - offset;
    } else {
      assert length == end - offset;
      if offset == end { assert |Requested(archive, offset, length)| > |archive[offset..end]|; }
    }
  }

  lemma JoinSlices(archive: seq<byte>, from: nat, at: nat, x: seq<byte>)
    requires from <= at && at + |x| <= |archive| && archive[at..at + |x|] == x
    ensures archive[from..at + |x|] == archive[from..at] + x
  {
  }

  /** The decoder is where it would be had it been given all of this at once. */
  ghost predicate InStep(codec: Codec, received: seq<byte>, st: State) {
    && st.error.None? && st.data == received && st.cursor <= |st.data|
    && (HeaderFits(received) ==> Run(codec, Covering, START.(data := received)) == Waiting(st) && OnTrack(st))
  }

  lemma StaysInStep(codec: Codec, received: seq<byte>, st: State, fragment: seq<byte>)
    requires InStep(codec, received, st)
    ensures var e := Parse(codec, Covering, st, fragment);
      !e.Faulted? && e.state.error.None? ==> InStep(codec, received + fragment, e.state)
  {
    if HeaderFits(received + fragment) {
      HeaderFitsPrefix(received, fragment);
      ContinuesDecoding(codec, st, fragment);
    }
  }

  function Decoding(codec: Codec, bytes: seq<byte>): Ending {
    Run(codec, Covering, START.(data := bytes))
  }

  /** In one piece, without nested streams, these bytes are decoded without error. */
  predicate Decodable(codec: Codec, bytes: seq<byte>) {
    HeaderFits(bytes) && NoNestedBlocks(bytes) && Decoding(codec, bytes).Waiting? && Decoding(codec, bytes).state.error.None?
  }

  /** Then so is what comes before their end, and the decoder that is in step neither fails nor reads what is not there. */
  lemma FragmentDecodes(codec: Codec, received: seq<byte>, st: State, fragment: seq<byte>, whole: seq<byte>)
    requires InStep(codec, received, st) && Decodable(codec, whole) && received + fragment <= whole
    ensures var e := Parse(codec, Covering, st, fragment); e.Waiting? && e.state.error.None?
  {
    var before, rest := received + fragment, whole[|received + fragment|..];
    assert before + rest == whole && Fed(START.(data := before), rest) == START.(data := whole);
    NoNestedRun(codec, whole);
    RunFed(codec, START.(data := before), rest);
    CleanFed(codec, START.(data := before), rest);
    HeaderFitsPrefix(before, rest);
    HeaderFitsPrefix(received, fragment);
    ContinuesDecoding(codec, st, fragment);
  }

  class Session {
    var offset: nat   // std::size_t
    var length: nat   // std::size_t
    const parser: Transform
    ghost var failed: bool            // the parser has reported an error
    ghost var received: seq<byte>     // everything the parser was given, in order
    ghost const offset0: nat
    ghost const length0: nat
    ghost const archive: seq<byte>

    /** The range is inside the archive; a zero length stands for the whole of it. */
    constructor (codec: Codec, offset: nat, length: nat, ghost archive: seq<byte>)
      requires |archive| < TWO_TO_64 && (if length == 0 then offset == 0 else offset + length <= |archive|)
      ensures Valid() && !failed && received == [] && fresh(parser) && fresh(parser.ms)
      ensures this.offset == offset && this.length == length && this.archive == archive && parser.codec == codec
    {
      this.offset, this.length := offset, length;
      this.failed, this.received := false, [];
      this.offset0, this.length0, this.archive := offset, length, archive;
      this.parser := new Transform(codec, Covering);
      new;
      assert START.(data := []) == START == parser.View();
    }

    /** Where the bytes end that the client asked for. */
    ghost function End(): nat {
      if length0 == 0 then |archive| else offset0 + length0
    }

    ghost predicate Valid()
      reads this, parser, parser.ms
    {
      && parser.Valid() && parser.guard == Covering
      && |archive| < TWO_TO_64 && End() <= |archive| && (length0 == 0 ==> offset0 == 0)
      && Counted()
      && (!failed ==> Conserved())
    }

    ghost predicate Conserved()
      requires |archive| < TWO_TO_64 && End() <= |archive|
      reads this, parser, parser.ms
    {
      // nothing was lost and nothing came twice
      && offset0 <= offset <= End() && received == archive[offset0..offset]
      && InStep(parser.codec, received, parser.View())
    }

    /** The feedback of the decoder: that many bytes less to ask for. */
    method Feedback(size: nat)
      requires offset < TWO_TO_64 && length < TWO_TO_64 && size < TWO_TO_64
      modifies this`offset, this`length
      ensures offset == if old(offset) + size < 0x1_0000_0000_0000_0000 then old(offset) + size else old(offset) + size - 0x1_0000_0000_0000_0000
      ensures length == if old(length) >= size then old(length) - size else old(length) - size + 0x1_0000_0000_0000_0000
    {
      offset := (offset + size) % TWO_TO_64;
      length := (length - size) % TWO_TO_64;
    }

    /** As long as nothing has failed, these are the next bytes of the range. */
    ghost predicate Expects(bytes: seq<byte>)
      requires End() <= |archive|
      reads this
    {
      failed || (offset + |bytes| <= End() && bytes == archive[offset..offset + |bytes|])
    }

    lemma FragmentExpected(fragment: seq<byte>, more: seq<byte>)
      requires Valid() && !failed && Expects(fragment + more)
      ensures Continues(fragment, more)
    {
      SplitSlice(archive, offset, fragment, more);
      JoinSlices(archive, offset0, offset, fragment);
    }

    /** What giving the decoder a fragment leads to; every read starts with a clear error code. */
    ghost function Given(fragment: seq<byte>): Ending
      requires parser.Valid()
      reads parser, parser.ms
    {
      Parse(parser.codec, Covering, parser.View().(error := None), fragment)
    }

    /** Gives a fragment to the decoder. */
    method Decode(fragment: seq<byte>) returns (undefined: bool)
      requires Valid()
      modifies parser, parser.ms
      ensures undefined <==> old(Given(fragment)).Faulted?
      ensures !undefined ==> parser.Valid() && parser.View() == old(Given(fragment)).state
      ensures !undefined && !failed && parser.error.None? ==> InStep(parser.codec, received + fragment, parser.View())
    {
      if !failed { StaysInStep(parser.codec, received, parser.View(), fragment); }
      if parser.error.Some? {
        parser.error := None;
      }
      undefined := parser.Parse(fragment);
    }

    /** Offset and length add up to the same, modulo the width of std::size_t. */
    ghost predicate Counted()
      reads this
    {
      && offset < TWO_TO_64 && length < TWO_TO_64 && offset0 + length0 < TWO_TO_64
      && SameModulo(offset + length, offset0 + length0)
    }

    /** What is left to ask for after a fragment that the decoder has been given: the feedback keeps the sum, and within
        the range it does not wrap. */
    method CountDown(fragment: seq<byte>, ghost more: seq<byte>)
      requires parser.Valid() && parser.guard == Covering && Counted() && |fragment| < TWO_TO_64
      requires |archive| < TWO_TO_64 && End() <= |archive| && (length0 == 0 ==> offset0 == 0)
      requires !failed ==> Continues(fragment, more)
      requires !failed && parser.error.None? ==> InStep(parser.codec, received + fragment, parser.View())
      modifies this`offset, this`length, this`failed, this`received
      ensures Valid() && Expects(more) && (failed <==> old(failed) || parser.error.Some?)
      ensures !failed ==> offset == old(offset) + |fragment|
    {
      ghost var view := parser.View();
      Feedback(|fragment|);
      assert Counted() && (!failed ==> offset == old(offset) + |fragment|);
      received := received + fragment;
      failed := failed || parser.error.Some?;
      assert parser.View() == view && (!failed ==> Conserved());
    }

    /** These are the next bytes of the range and those that follow them. */
    ghost predicate Continues(fragment: seq<byte>, more: seq<byte>)
      requires End() <= |archive|
      reads this
    {
      var next := offset + |fragment|;
      && offset0 <= offset && next + |more| <= End()
      && more == archive[next..next + |more|] && received + fragment == archive[offset0..next]
    }

    /** The range that the client asked for. */
    ghost function Range(): seq<byte>
      requires offset0 <= End() <= |archive|
    {
      archive[offset0..End()]
    }

    /** The range can be decoded, so no part of it makes the decoder fail. */
    ghost predicate Harmless() {
      offset0 <= End() <= |archive| && Decodable(parser.codec, Range())
    }

    lemma NothingFails(fragment: seq<byte>, more: seq<byte>)
      requires Valid() && !failed && Harmless() && Continues(fragment, more)
      ensures Given(fragment).Waiting? && Given(fragment).state.error.None?
    {
      var next := offset + |fragment|;
      assert archive[offset0..next] == Range()[..next - offset0];
      FragmentDecodes(parser.codec, received, parser.View(), fragment, Range());
      assert parser.View().(error := None) == parser.View();
    }

    /** One fragment of a body, with more to come.  It is undefined or fails as the decoder's specification says. */
    method Put(fragment: seq<byte>, ghost more: seq<byte>) returns (undefined: bool)
      requires Valid() && |fragment| < TWO_TO_64 && Expects(fragment + more)
      modifies this`offset, this`length, this`failed, this`received, parser, parser.ms
      ensures !undefined ==> Valid() && Expects(more) && (failed <==> old(failed) || parser.error.Some?)
      ensures !undefined && !failed ==> offset == old(offset) + |fragment|
      ensures undefined <==> old(Given(fragment)).Faulted?
      ensures !undefined ==> (failed <==> old(failed) || old(Given(fragment)).state.error.Some?)
      ensures Harmless() && !old(failed) ==> !undefined && !failed
    {
      if !failed {
        FragmentExpected(fragment, more);
        if Harmless() { NothingFails(fragment, more); }
      }
      undefined := Decode(fragment);
      if !undefined { CountDown(fragment, more); }
    }

    /** The fragments of one body, up to the first error. */
    method ReadBody(fragments: seq<seq<byte>>) returns (undefined: bool)
      requires Valid() && Addressable(fragments) && Expects(Concat(fragments))
      modifies this`offset, this`length, this`failed, this`received, parser, parser.ms
      ensures !undefined ==> Valid() && (old(failed) ==> failed)
      ensures !undefined && !failed ==> offset == old(offset) + |Concat(fragments)|
      ensures Harmless() && !old(failed) ==> !undefined && !failed
    {
      var i := 0;
      while i < |fragments|
        invariant i <= |fragments| && Valid() && (old(failed) ==> failed) && (Harmless() && !old(failed) ==> !failed)
        invariant Expects(Concat(fragments[i..]))
        invariant !failed ==> offset + |Concat(fragments[i..])| == old(offset) + |Concat(fragments)|
        decreases |fragments| - i
      {
        ghost var more := Concat(fragments[i + 1..]);
        assert fragments[i..][1..] == fragments[i + 1..] && Concat(fragments[i..]) == fragments[i] + more;
        undefined := Put(fragments[i], more);
        if undefined { return true; }
        if parser.error.Some? { return false; }
        i := i + 1;
      }
      undefined := false;
    }

    /** An honest answer is expected; it uses the range up exactly if it is complete. */
    lemma AnswerExpected(answer: Attempt)
      requires Valid() && (!failed && length0 > 0 ==> offset < End())
      requires answer.Delivers? && HonestAnswer(Requested(archive, offset, length), answer)
      ensures Addressable(answer.fragments) && Expects(Concat(answer.fragments))
      ensures !failed ==>
        && offset + |Concat(answer.fragments)| <= End()
        && (answer.completed <==> offset + |Concat(answer.fragments)| == End())
    {
      if !failed {
        RequestedRest(archive, offset0, length0, offset, length, End());
        PrefixSlice(archive, offset, End(), Concat(answer.fragments));
      }
    }

    /** The range has an end of its own; a request for the whole of an archive counts down from zero. */
    ghost predicate Limited() {
      length0 > 0 || archive == []
    }

    /** At the end of a range that has one, nothing is left to ask for. */
    lemma NothingLeft()
      requires Valid()
      ensures !failed && length == 0 && length0 > 0 ==> received == archive[offset0..End()]
      ensures !failed && Limited() ==> (length == 0 <==> offset == End())
      ensures !failed && !Limited() && offset == End() ==> length != 0
    {
    }

    /** One turn of the loop over the CDNs, with the answer of the next one. */
    method TryCdn(attempt: Attempt) returns (undefined: bool, served: bool)
      requires Valid() && (!failed && length0 > 0 ==> offset < End())
      requires HonestAnswer(Requested(archive, offset, length), attempt)
      modifies this`offset, this`length, this`failed, this`received, parser, parser.ms
      ensures !undefined ==> Valid() && (old(failed) ==> failed) && (!failed && length0 > 0 && !served ==> offset < End())
      ensures !undefined && served && !failed ==> length == 0 && (length0 > 0 ==> received == archive[offset0..End()])
      ensures !undefined && !failed ==> (served <==> CompleteAnswer(attempt) && Limited())
      ensures Harmless() && !old(failed) ==> !undefined && !failed
    {
      if attempt.Unusable? { return false, false; }
      AnswerExpected(attempt);
      undefined := ReadBody(attempt.fragments);
      if undefined { return true, false; }
      NothingLeft();
      served := parser.error.None? && attempt.completed && length == 0;
    }

    /** The loop over the CDNs.  It ends the request when one of them has delivered the rest. */
    method ProcessRequest(cdns: seq<(nat, nat) -> Attempt>) returns (undefined: bool, served: bool)
      requires Valid() && !failed && (length0 == 0 || offset < End())
      requires forall cdn | cdn in cdns :: Honest(archive, cdn)
      modifies this`offset, this`length, this`failed, this`received, parser, parser.ms
      ensures !undefined ==> Valid()
      ensures !undefined && served && !failed ==> length == 0 && (length0 > 0 ==> received == archive[offset0..End()])
      ensures !undefined && !failed && Limited() && !NoneReliable(cdns) ==> served
      ensures !undefined && !failed && !Limited() ==> !served
      ensures Harmless() ==> !undefined && !failed
      ensures Harmless() && served ==> parser.output == Decoding(parser.codec, Range()).state.output
      ensures Limited() && !NoneReliable(cdns) && HeaderFits(Range()) && NoNestedBlocks(Range()) ==>
        (!undefined && !failed <==> Harmless())
    {
      undefined, served := false, false;
      for c := 0 to |cdns|
        invariant !undefined && !served && Valid() && (!failed && length0 > 0 ==> offset < End())
        invariant !failed && Limited() ==> NoneReliable(cdns[..c])
        invariant Harmless() ==> !failed
      {
        assert cdns[..c + 1] == cdns[..c] + [cdns[c]];
        if Reliable(cdns[c]) { ReliableCompletes(cdns[c], offset, length); }
        HonestHere(archive, cdns[c], offset, length);
        undefined, served := TryCdn(cdns[c](offset, length));
        if undefined || served { break; }
      }
      assert cdns[..|cdns|] == cdns;
      if !undefined && !failed && served { WholeRange(); }
    }

    /** A served request has decoded the whole range. */
    lemma WholeRange()
      requires Valid() && !failed && Limited() && length == 0
      ensures received == Range()
      ensures HeaderFits(Range()) ==> Decoding(parser.codec, Range()) == Waiting(parser.View()) && parser.error.None?
    {
      NothingLeft();
    }
  }

  /** No CDN among these delivers everything that is asked for. */
  ghost predicate NoneReliable(cdns: seq<(nat, nat) -> Attempt>) {
    cdns == [] || (!Reliable(cdns[|cdns| - 1]) && NoneReliable(cdns[..|cdns| - 1]))
  }

  lemma PrefixSlice(archive: seq<byte>, from: nat, to: nat, x: seq<byte>)
    requires from <= to <= |archive| && x <= archive[from..to]
    ensures from + |x| <= to && x == archive[from..from + |x|]
    ensures x != archive[from..to] ==> from + |x| < to
  {
    if |x| == to - from { assert x == archive[from..to]; }
    assert forall i | 0 <= i < |x| :: archive[from..to][i] == archive[from + i];
  }

  /** What a caller learns from a session that has not failed: the output is the decoding, in one piece, of the prefix of
      the range that was fetched, however many CDNs and fragments it took. */
  lemma SessionOutput(session: Session)
    requires session.Valid() && !session.failed && HeaderFits(session.received)
    ensures session.received == session.archive[session.offset0..session.offset]
    ensures var e := Parse(session.parser.codec, Covering, START, session.archive[session.offset0..session.offset]);
      e.Waiting? && session.parser.output == e.state.output
  {
    assert START.data + session.received == session.received;
  }
}
