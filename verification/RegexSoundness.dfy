/** Whatever the evaluator accepts is in the language of the pattern, captures included.  No restriction on the
    pattern: nested repeats, nullable contents and possessive repeats are all in. */
module RegexSoundness {
  import opened RegexSyntax
  import opened RegexEvaluator
  import opened RegexLanguage
  import opened FirstSets

  /** A successful evaluation went through its first node: that node covers a span, and the rest of the stack was
      evaluated from the end of the span with the same outcome. */
  lemma {:induction false} Peel(optimise: bool, s: Subject, p: nat, blocked: bool, r: Results, k: Nodes)
    returns (j: nat, b: bool, after: Results)
    requires p <= |s| && k.Cons? && Plain(k.head) && WellNumberedNode(k.head)
    requires Eval(optimise, s, p, blocked, r, k).Matched?
    ensures p <= j <= |s| && Covers(k.head, s, p, j)
    ensures Eval(optimise, s, j, b, after, k.tail) == Eval(optimise, s, p, blocked, r, k)
    ensures RecordedIn(k.head, s, r, after)
    ensures k.head.Capture? ==> after.Group(k.head.id) == Span(p, j, true)
    decreases |s| - p, Sizes(k), 3, 0
  {
    var Cons(head, tail) := k;
    match head
    case One(_) => j, b, after := p + 1, false, r;
    case AnyChar => j, b, after := p + 1, false, r;
    case Text(chars) => j, b, after := p + |chars|, blocked && |chars| == 0, r;
    case Sequence(parts) =>
      j, b, after := PeelSequence(optimise, s, p, blocked, r, parts, tail);
    case Select(options) =>
      j, b, after := PeelSelect(optimise, s, p, blocked, r, options, tail);
    case Capture(id, content) =>
      j, b, after := PeelCapture(optimise, s, p, blocked, r, id, content, tail);
    case Repeat(mode, min, max, content) =>
      assert Sizes(k) == 3 + Sizes(content) + Sizes(tail);
      j, b, after := PeelRepeat(optimise, s, p, blocked, r, mode, min, max, content, tail);
    case _ => j, b, after := p, blocked, r;
  }

  lemma {:induction false} PeelSequence(optimise: bool, s: Subject, p: nat, blocked: bool, r: Results,
                                        parts: Nodes, tail: Nodes)
    returns (j: nat, b: bool, after: Results)
    requires p <= |s| && AllPlain(parts) && WellNumbered(parts)
    requires Eval(optimise, s, p, blocked, r, Cons(Sequence(parts), tail)).Matched?
    ensures p <= j <= |s| && parts.Cons? && CoversAll(parts, s, p, j)
    ensures Eval(optimise, s, j, b, after, tail) == Eval(optimise, s, p, blocked, r, Cons(Sequence(parts), tail))
    ensures Recorded(parts, s, r, after)
    decreases |s| - p, Sizes(Cons(Sequence(parts), tail)), 2, 0
  {
    SplitSizes(parts, tail);
    var m, b1, r1 := Peel(optimise, s, p, blocked, r, Split(parts, tail));
    if parts.tail.Cons? {
      j, b, after := PeelSequence(optimise, s, m, b1, r1, parts.tail, tail);
    } else {
      j, b, after := m, b1, r1;
      assert CoversAll(parts.tail, s, m, m);
    }
  }

  lemma {:induction false} PeelSelect(optimise: bool, s: Subject, p: nat, blocked: bool, r: Results,
                                      options: Nodes, tail: Nodes)
    returns (j: nat, b: bool, after: Results)
    requires p <= |s| && AllPlain(options) && WellNumbered(options)
    requires Eval(optimise, s, p, blocked, r, Cons(Select(options), tail)).Matched?
    ensures p <= j <= |s| && CoversSome(options, s, p, j)
    ensures Eval(optimise, s, j, b, after, tail) == Eval(optimise, s, p, blocked, r, Cons(Select(options), tail))
    ensures RecordedSome(options, s, r, after)
    decreases |s| - p, Sizes(Cons(Select(options), tail)), 2, 0
  {
    SelectSizes(options, tail);
    if Eval(optimise, s, p, blocked, r, Cons(options.head, tail)).Matched? {
      j, b, after := Peel(optimise, s, p, blocked, r, Cons(options.head, tail));
    } else {
      j, b, after := PeelSelect(optimise, s, p, blocked, r, options.tail, tail);
    }
  }

  lemma {:induction false} PeelCapture(optimise: bool, s: Subject, p: nat, blocked: bool, r: Results,
                                       id: nat, content: Nodes, tail: Nodes)
    returns (j: nat, b: bool, after: Results)
    requires p <= |s| && AllPlain(content) && WellNumberedNode(Capture(id, content))
    requires Eval(optimise, s, p, blocked, r, Cons(Capture(id, content), tail)).Matched?
    ensures p <= j <= |s| && content.Cons? && CoversAll(content, s, p, j)
    ensures Eval(optimise, s, j, b, after, tail) == Eval(optimise, s, p, blocked, r, Cons(Capture(id, content), tail))
    ensures RecordedIn(Capture(id, content), s, r, after) && after.Group(id) == Span(p, j, true)
    decreases |s| - p, Sizes(Cons(Capture(id, content), tail)), 2, 0
  {
    OpenSizes(id, content, tail);
    j, b, after := PeelSequence(optimise, s, p, blocked, r.StartCapture(id, p), content, Cons(NumericMark(id), tail));
    CaptureRecorded(id, content, s, p, j, r, after);
    after := after.EndCapture(id, j);
  }

  lemma {:induction false} CaptureRecorded(id: nat, content: Nodes, s: Subject, p: nat, j: nat, r: Results, after: Results)
    requires !HasGroup(content, id)
    requires p <= j <= |s| && CoversAll(content, s, p, j)
    requires Recorded(content, s, r.StartCapture(id, p), after)
    ensures RecordedIn(Capture(id, content), s, r, after.EndCapture(id, j))
    ensures after.EndCapture(id, j).Group(id) == Span(p, j, true)
  {
    var started := r.StartCapture(id, p);
    var done := after.EndCapture(id, j);
    NoGroupNoCover(content, id, s, after.Group(id));
    assert !SomeGroupCovers(content, id, s, after.Group(id));
    forall other: nat
      ensures done.Group(other) == r.Group(other) ||
        (done.Group(other).matched && GroupCovers(Capture(id, content), other, s, done.Group(other)))
    {
      if other != id {
        assert done.Group(other) == after.Group(other) && started.Group(other) == r.Group(other);
        if after.Group(other) != started.Group(other) {
          assert SomeGroupCovers(content, other, s, after.Group(other));
          assert GroupCovers(Capture(id, content), other, s, done.Group(other));
        }
      } else {
        assert GroupCovers(Capture(id, content), id, s, done.Group(id));
      }
    }
  }

  lemma {:induction false} PeelRepeat(optimise: bool, s: Subject, p: nat, blocked: bool, r: Results,
                                      mode: Mode, min: nat, max: nat, content: Nodes, tail: Nodes)
    returns (j: nat, b: bool, after: Results)
    requires p <= |s| && AllPlain(content) && WellNumbered(content)
    requires EvalRepeat(optimise, s, p, blocked, r, mode, min, max, content, tail).Matched?
    ensures p <= j <= |s| && Covers(Repeat(mode, min, max, content), s, p, j)
    ensures Eval(optimise, s, j, b, after, tail) == EvalRepeat(optimise, s, p, blocked, r, mode, min, max, content, tail)
    ensures RecordedTimes(content, min, s, r, after)
    decreases |s| - p, 3 + Sizes(content) + Sizes(tail), 2, if mode.Greedy? then 1 else 0
  {
    if mode.Greedy? && optimise && !Collides(First([], content), First([], tail)) {
      j, b, after := PeelRepeat(optimise, s, p, blocked, r, Possessive, min, max, content, tail);
    } else if mode.Possessive? {
      var n := ExhaustSound(optimise, s, p, r, content, min, max, 0);
      var At(q, r') := Exhaust(optimise, s, p, r, content, min, max, 0);
      j, b, after := q, blocked && p == q, r';
    } else {
      j, b, after := PeelCounted(optimise, s, p, blocked, r, mode, min, max, content, tail);
    }
  }

  /** The counted loop of a greedy or lazy repeat. */
  lemma {:induction false} PeelCounted(optimise: bool, s: Subject, p: nat, blocked: bool, r: Results,
                                       mode: Mode, min: nat, max: nat, content: Nodes, tail: Nodes)
    returns (j: nat, b: bool, after: Results)
    requires p <= |s| && AllPlain(content) && WellNumbered(content) && !mode.Possessive?
    requires mode.Greedy? && optimise ==> Collides(First([], content), First([], tail))
    requires EvalRepeat(optimise, s, p, blocked, r, mode, min, max, content, tail).Matched?
    ensures p <= j <= |s| && Covers(Repeat(mode, min, max, content), s, p, j)
    ensures Eval(optimise, s, j, b, after, tail) == EvalRepeat(optimise, s, p, blocked, r, mode, min, max, content, tail)
    ensures RecordedTimes(content, min, s, r, after)
    decreases |s| - p, 3 + Sizes(content) + Sizes(tail), 1, 0
  {
    IterateSound(optimise, s, p, r, content, min);
    var At(q, r') := Iterate(optimise, s, p, r, content, min);
    var n: nat;
    n, j, b, after := PeelRest(optimise, s, p, blocked, q, r', mode, min, max, content, tail);
    CoversTimesAdd(content, min, n, s, p, q, j);
    assert min <= min + n && CoversTimes(content, min + n, s, p, j);
  }

  lemma {:induction false} PeelRest(optimise: bool, s: Subject, p: nat, blocked: bool, q: nat, r: Results,
                                    mode: Mode, min: nat, max: nat, content: Nodes, tail: Nodes)
    returns (n: nat, j: nat, b: bool, after: Results)
    requires p <= q <= |s| && AllPlain(content) && WellNumbered(content)
    requires max == 0 || min <= max
    requires AfterMinimum(optimise, s, p, blocked, q, r, mode, min, max, content, tail).Matched?
    ensures max == 0 || min + n <= max
    ensures q <= j <= |s| && CoversTimes(content, n, s, q, j) && RecordedTimes(content, n, s, r, after)
    ensures Eval(optimise, s, j, b, after, tail)
         == AfterMinimum(optimise, s, p, blocked, q, r, mode, min, max, content, tail)
    decreases |s| - q, Sizes(content) + 1, 7, 0
  {
    if mode.Greedy? {
      n, j, b, after := GreedySound(optimise, s, q, r, max, content, tail, min);
    } else if Eval(optimise, s, q, blocked && p == q, r, tail).Matched? {
      n, j, b, after := 0, q, blocked && p == q, r;
    } else {
      n, j, b, after := LazySound(optimise, s, q, r, max, content, tail, min);
    }
  }

  lemma {:induction false} PeelAll(optimise: bool, s: Subject, p: nat, blocked: bool, r: Results, front: Nodes, back: Nodes)
    returns (j: nat, b: bool, after: Results)
    requires p <= |s| && AllPlain(front) && WellNumbered(front)
    requires Eval(optimise, s, p, blocked, r, Append(front, back)).Matched?
    ensures p <= j <= |s| && CoversAll(front, s, p, j)
    ensures Eval(optimise, s, j, b, after, back) == Eval(optimise, s, p, blocked, r, Append(front, back))
    ensures Recorded(front, s, r, after)
    decreases |s| - p, Sizes(Append(front, back)), 4, 0
  {
    if front.Nil? {
      j, b, after := p, blocked, r;
    } else {
      var m, b1, r1 := Peel(optimise, s, p, blocked, r, Append(front, back));
      j, b, after := PeelAll(optimise, s, m, b1, r1, front.tail, back);
    }
  }

  lemma {:induction false} IterationSound(optimise: bool, s: Subject, p: nat, r: Results, content: Nodes)
    requires p <= |s| && AllPlain(content) && WellNumbered(content)
    requires Iteration(optimise, s, p, r, content).Matched?
    ensures var r' := Iteration(optimise, s, p, r, content).results;
      CoversAll(content, s, p, r'.end) && Recorded(content, s, r, r')
    decreases |s| - p, Sizes(content) + 1, 5, 0
  {
    AppendSizes(content, Cons(EndCycleMark, Nil));
    var j, b, after := PeelAll(optimise, s, p, true, r, content, Cons(EndCycleMark, Nil));
  }

  /** One more iteration before those that follow. */
  lemma RecordedOnceMore(content: Nodes, n: nat, s: Subject, before: Results, between: Results, after: Results)
    requires Recorded(content, s, before, between) && RecordedTimes(content, n, s, between, after)
    ensures RecordedTimes(content, n + 1, s, before, after)
  {
  }

  lemma OnceMore(content: Nodes, n: nat, s: Subject, p: nat, m: nat, j: nat, before: Results, between: Results, after: Results)
    requires CoversAll(content, s, p, m) && CoversTimes(content, n, s, m, j)
    requires Recorded(content, s, before, between) && RecordedTimes(content, n, s, between, after)
    ensures CoversTimes(content, n + 1, s, p, j) && RecordedTimes(content, n + 1, s, before, after)
  {
    RecordedOnceMore(content, n, s, before, between, after);
  }

  lemma {:induction false} IterateSound(optimise: bool, s: Subject, p: nat, r: Results, content: Nodes, n: nat)
    requires p <= |s| && AllPlain(content) && WellNumbered(content)
    requires Iterate(optimise, s, p, r, content, n).At?
    ensures var At(q, r') := Iterate(optimise, s, p, r, content, n);
      CoversTimes(content, n, s, p, q) && RecordedTimes(content, n, s, r, r')
    decreases |s| - p, Sizes(content) + 1, 6, n
  {
    if n > 0 {
      IterationSound(optimise, s, p, r, content);
      var r' := Iteration(optimise, s, p, r, content).results;
      IterateSound(optimise, s, r'.end, r', content, n - 1);
      RecordedOnceMore(content, n - 1, s, r, r', Iterate(optimise, s, p, r, content, n).results);
    }
  }

  lemma {:induction false} ExhaustSound(optimise: bool, s: Subject, p: nat, r: Results, content: Nodes, min: nat, max: nat, i: nat)
    returns (n: nat)
    requires p <= |s| && AllPlain(content) && WellNumbered(content)
    requires max == 0 || (min <= max && i <= max)
    requires Exhaust(optimise, s, p, r, content, min, max, i).At?
    ensures min <= i + n && (max == 0 || i + n <= max)
    ensures var At(q, r') := Exhaust(optimise, s, p, r, content, min, max, i);
      CoversTimes(content, n, s, p, q) && RecordedTimes(content, n, s, r, r')
    decreases |s| - p, Sizes(content) + 1, 6, if i < max then max - i else 0
  {
    if LessThanOrInfinite(max, i) && Iteration(optimise, s, p, r, content).Matched? {
      IterationSound(optimise, s, p, r, content);
      var r' := Iteration(optimise, s, p, r, content).results;
      n := ExhaustSound(optimise, s, r'.end, r', content, min, max, i + 1);
      var q := Exhaust(optimise, s, p, r, content, min, max, i).position;
      OnceMore(content, n, s, p, r'.end, q, r, r', Exhaust(optimise, s, p, r, content, min, max, i).results);
      n := n + 1;
    } else {
      n := 0;
      assert CoversTimes(content, 0, s, p, p);
    }
  }

  lemma {:induction false} GreedySound(optimise: bool, s: Subject, p: nat, r: Results,
                                       max: nat, content: Nodes, tail: Nodes, i: nat)
    returns (n: nat, j: nat, b: bool, after: Results)
    requires p <= |s| && AllPlain(content) && WellNumbered(content)
    requires max == 0 || i <= max
    requires GreedyRest(optimise, s, p, r, max, content, tail, i).Matched?
    ensures max == 0 || i + n <= max
    ensures p <= j <= |s| && CoversTimes(content, n, s, p, j) && RecordedTimes(content, n, s, r, after)
    ensures Eval(optimise, s, j, b, after, tail) == GreedyRest(optimise, s, p, r, max, content, tail, i)
    decreases |s| - p, Sizes(content) + 1, 6, if i < max then max - i else 0
  {
    if LessThanOrInfinite(max, i) && Iteration(optimise, s, p, r, content).Matched? {
      var r' := Iteration(optimise, s, p, r, content).results;
      if GreedyRest(optimise, s, r'.end, r', max, content, tail, i + 1).Matched? {
        IterationSound(optimise, s, p, r, content);
        n, j, b, after := GreedySound(optimise, s, r'.end, r', max, content, tail, i + 1);
        OnceMore(content, n, s, p, r'.end, j, r, r', after);
        n := n + 1;
        return;
      }
    }
    n, j, b, after := 0, p, false, r;
  }

  lemma {:induction false} LazySound(optimise: bool, s: Subject, p: nat, r: Results,
                                     max: nat, content: Nodes, tail: Nodes, i: nat)
    returns (n: nat, j: nat, b: bool, after: Results)
    requires p <= |s| && AllPlain(content) && WellNumbered(content)
    requires max == 0 || i <= max
    requires LazyRest(optimise, s, p, r, max, content, tail, i).Matched?
    ensures max == 0 || i + n <= max
    ensures p <= j <= |s| && CoversTimes(content, n, s, p, j) && RecordedTimes(content, n, s, r, after)
    ensures Eval(optimise, s, j, b, after, tail) == LazyRest(optimise, s, p, r, max, content, tail, i)
    decreases |s| - p, Sizes(content) + 1, 6, if i < max then max - i else 0
  {
    if LessThanOrInfinite(max, i) {
      IterationSound(optimise, s, p, r, content);
      var r' := Iteration(optimise, s, p, r, content).results;
      if Eval(optimise, s, r'.end, false, r', tail).Matched? {
        n, j, b, after := 0, r'.end, false, r';
        assert CoversTimes(content, 0, s, j, j);
      } else {
        n, j, b, after := LazySound(optimise, s, r'.end, r', max, content, tail, i + 1);
      }
      OnceMore(content, n, s, p, r'.end, j, r, r', after);
      n := n + 1;
    } else {
      n, j, b, after := 0, p, false, r;
      assert CoversTimes(content, 0, s, p, p);
    }
  }

  /** The end of the stack accepts at the end of the subject only, and notes it. */
  lemma EndAccepted(optimise: bool, s: Subject, j: nat, b: bool, after: Results)
    requires j <= |s|
    ensures var o := Eval(optimise, s, j, b, after, Cons(AssertEnd, Cons(EndMark, Cons(Accept, Nil))));
      o == if j == |s| then Matched(after.(end := j)) else NotMatched
  {
    var accepting := Cons(Accept, Nil);
    assert Eval(optimise, s, j, b, after.(end := j), accepting) == Matched(after.(end := j));
    assert Eval(optimise, s, j, b, after, Cons(EndMark, accepting)) == Matched(after.(end := j));
  }

  /** A match covers the whole subject, spans it, and every matched group has a span that its content covers.  The groups
      that every match passes are matched. */
  lemma {:induction false} MatchIsSound(optimise: bool, re: Node, s: Subject)
    requires Plain(re) && WellNumberedNode(re)
    requires Match(optimise, re, s).Matched?
    ensures Covers(re, s, 0, |s|)
    ensures var r := Match(optimise, re, s).results;
      && r.begin == 0 && r.end == |s|
      && (forall id: nat | r.Group(id).matched :: GroupCovers(re, id, s, r.Group(id)))
      && forall id: nat | Passes(re, id) :: r.Group(id).matched
  {
    var started := Results(0, 0, map[]);
    var ending := Cons(AssertEnd, Cons(EndMark, Cons(Accept, Nil)));
    assert Match(optimise, re, s) == Eval(optimise, s, 0, false, started, Cons(re, ending));
    var j, b, after := Peel(optimise, s, 0, false, started, Cons(re, ending));
    EndAccepted(optimise, s, j, b, after);
    var r := after.(end := j);
    forall id: nat | r.Group(id).matched
      ensures GroupCovers(re, id, s, r.Group(id))
    {
      assert r.Group(id) == after.Group(id) && !started.Group(id).matched;
    }
    forall id: nat | Passes(re, id)
      ensures r.Group(id).matched
    {
      assert r.Group(id) == after.Group(id);
    }
  }
}
