/** Two repeats of the same content that follow one another are merged into one while a pattern is built. */
module RepeatFusion {
  import opened RegexSyntax
  import opened RegexEvaluator
  import opened RegexLanguage
  import opened RegexSoundness
  import opened FirstCoverage
  import opened PossessiveOptimisation
  import opened OptimiserInvisible
  import opened RegexExactness
  import opened RegexSpans

  /** `combine_max_repeat_length`: unbounded wins. */
  function CombineMax(a: nat, b: nat): nat {
    if a != 0 && b != 0 then a + b else 0
  }

  function CombineRepeat(mode: Mode, minA: nat, maxA: nat, minB: nat, maxB: nat, content: Nodes): Node {
    if !mode.Possessive? then Repeat(mode, minA + minB, CombineMax(maxA, maxB), content)
    else if maxA == 0 && minB > 0 then Sequence(Cons(Reject, content))
    else if maxA == 0 then Repeat(mode, minA, maxA, content)
    else if minB == 0 then Repeat(mode, minA, CombineMax(maxA, maxB), content)
    else Repeat(mode, maxA + minB, CombineMax(maxA, maxB), content)
  }

  predicate Bounds(min: nat, max: nat) {
    max == 0 || min <= max
  }

  /** The two repeats, one after the other. */
  function InTurn(mode: Mode, minA: nat, maxA: nat, minB: nat, maxB: nat, content: Nodes, tail: Nodes): Nodes {
    Cons(Repeat(mode, minA, maxA, content), Cons(Repeat(mode, minB, maxB, content), tail))
  }

  lemma RepeatTimes(mode: Mode, min: nat, max: nat, content: Nodes, s: Subject, i: nat, j: nat) returns (n: nat)
    requires Covers(Repeat(mode, min, max, content), s, i, j)
    ensures min <= n && (max == 0 || n <= max) && CoversTimes(content, n, s, i, j)
  {
    n :| min <= n && (max == 0 || n <= max) && CoversTimes(content, n, s, i, j);
  }

  lemma PairCovers(a: Node, b: Node, s: Subject, i: nat, j: nat) returns (m: nat)
    requires CoversAll(Cons(a, Cons(b, Nil)), s, i, j)
    ensures Covers(a, s, i, m) && Covers(b, s, m, j)
  {
    m :| Covers(a, s, i, m) && CoversAll(Cons(b, Nil), s, m, j);
    LastCovers(b, s, m, j);
  }

  lemma LastCovers(a: Node, s: Subject, i: nat, j: nat)
    requires CoversAll(Cons(a, Nil), s, i, j)
    ensures Covers(a, s, i, j)
  {
    var m: nat :| Covers(a, s, i, m) && CoversAll(Nil, s, m, j);
  }

  /** A merged greedy or lazy repeat covers exactly what the two cover in turn. */
  lemma {:induction false} FusionCovers(mode: Mode, minA: nat, maxA: nat, minB: nat, maxB: nat, content: Nodes,
                                        s: Subject, i: nat, j: nat)
    requires !mode.Possessive? && Bounds(minA, maxA) && Bounds(minB, maxB)
    ensures Covers(CombineRepeat(mode, minA, maxA, minB, maxB, content), s, i, j)
       <==> CoversAll(InTurn(mode, minA, maxA, minB, maxB, content, Nil), s, i, j)
  {
    var first, second := Repeat(mode, minA, maxA, content), Repeat(mode, minB, maxB, content);
    if Covers(CombineRepeat(mode, minA, maxA, minB, maxB, content), s, i, j) {
      var n := RepeatTimes(mode, minA + minB, CombineMax(maxA, maxB), content, s, i, j);
      var a := if maxA == 0 || n - minB <= maxA then n - minB else maxA;
      var m := CoversTimesSplit(content, a, n - a, s, i, j);
      TimesForward(content, n - a, s, m, j);
      assert CoversTimes(content, a, s, i, m) && minA <= a && (maxA == 0 || a <= maxA);
      assert CoversTimes(content, n - a, s, m, j) && minB <= n - a && (maxB == 0 || n - a <= maxB);
      assert Covers(first, s, i, m) && Covers(second, s, m, j);
      assert CoversAll(Nil, s, j, j);
      assert CoversAll(Cons(second, Nil), s, m, j);
    }
    if CoversAll(InTurn(mode, minA, maxA, minB, maxB, content, Nil), s, i, j) {
      var m := PairCovers(first, second, s, i, j);
      var a := RepeatTimes(mode, minA, maxA, content, s, i, m);
      var b := RepeatTimes(mode, minB, maxB, content, s, m, j);
      CoversTimesAdd(content, a, b, s, i, m, j);
    }
  }

  /** A node that consumes one character. */
  predicate TakesOne(m: Node) {
    m.One? || m.AnyChar?
  }

  predicate Takes(m: Node, c: Char) {
    m.AnyChar? || (m.One? && MatchItem(m.item, c))
  }

  /** Outside the bounds, for content of one character, the merge is wrong as soon as it makes a range that is not empty:
      `x{2,1}` covers nothing, yet merged with another repeat it can cover something, if there is any `x`. */
  lemma {:induction false} FusionOfEmptyRange(mode: Mode, minA: nat, maxA: nat, minB: nat, maxB: nat, m: Node)
    requires !mode.Possessive? && !(Bounds(minA, maxA) && Bounds(minB, maxB)) && TakesOne(m)
    ensures var content := Cons(m, Nil);
      (forall s: Subject, i: nat, j: nat ::
        Covers(CombineRepeat(mode, minA, maxA, minB, maxB, content), s, i, j) <==>
        CoversAll(InTurn(mode, minA, maxA, minB, maxB, content, Nil), s, i, j))
      <==> !Bounds(minA + minB, CombineMax(maxA, maxB)) || forall v: Char :: !Takes(m, v)
  {
    var content := Cons(m, Nil);
    var merged := CombineRepeat(mode, minA, maxA, minB, maxB, content);
    forall s: Subject, i: nat, j: nat
      ensures !CoversAll(InTurn(mode, minA, maxA, minB, maxB, content, Nil), s, i, j)
    {
      EmptyRangeCoversNothing(mode, minA, maxA, minB, maxB, content, s, i, j);
    }
    if v: Char :| Takes(m, v) && Bounds(minA + minB, CombineMax(maxA, maxB)) {
      var n := minA + minB;
      RunCovers(m, v, n, 0);
      assert Covers(merged, Run(v, n), 0, n);
    }
    if forall v: Char :: !Takes(m, v) {
      forall s: Subject, i: nat, j: nat
        ensures !Covers(merged, s, i, j)
      {
        NothingToRepeat(mode, minA + minB, CombineMax(maxA, maxB), m, s, i, j);
      }
    }
  }

  lemma EmptyRangeCoversNothing(mode: Mode, minA: nat, maxA: nat, minB: nat, maxB: nat, content: Nodes,
                                s: Subject, i: nat, j: nat)
    requires !(Bounds(minA, maxA) && Bounds(minB, maxB))
    ensures !CoversAll(InTurn(mode, minA, maxA, minB, maxB, content, Nil), s, i, j)
  {
    if CoversAll(InTurn(mode, minA, maxA, minB, maxB, content, Nil), s, i, j) {
      var m := PairCovers(Repeat(mode, minA, maxA, content), Repeat(mode, minB, maxB, content), s, i, j);
    }
  }

  lemma NothingTaken(m: Node, s: Subject, i: nat, j: nat)
    requires TakesOne(m) && forall v: Char :: !Takes(m, v)
    ensures !CoversAll(Cons(m, Nil), s, i, j)
  {
    if i < |s| { assert !Takes(m, s[i]); }
    assert !Covers(m, s, i, j);
    if CoversAll(Cons(m, Nil), s, i, j) { LastCovers(m, s, i, j); }
  }

  lemma NothingToRepeat(mode: Mode, min: nat, max: nat, m: Node, s: Subject, i: nat, j: nat)
    requires min > 0 && TakesOne(m) && forall v: Char :: !Takes(m, v)
    ensures !Covers(Repeat(mode, min, max, Cons(m, Nil)), s, i, j)
  {
    forall q: nat
      ensures !CoversAll(Cons(m, Nil), s, i, q)
    {
      NothingTaken(m, s, i, q);
    }
    assert forall n: nat | n > 0 :: !CoversTimes(Cons(m, Nil), n, s, i, j);
  }

  /** `n` times the same character. */
  function Run(v: Char, n: nat): Subject {
    seq(n, i => v)
  }

  lemma {:induction false} RunCovers(m: Node, v: Char, n: nat, i: nat)
    requires i <= n && TakesOne(m) && Takes(m, v)
    ensures CoversTimes(Cons(m, Nil), n - i, Run(v, n), i, n)
    decreases n - i
  {
    if i < n {
      var s := Run(v, n);
      assert Covers(m, s, i, i + 1) && CoversAll(Nil, s, i + 1, i + 1);
      assert CoversAll(Cons(m, Nil), s, i, i + 1);
      RunCovers(m, v, n, i + 1);
    }
  }

  /** The merge cannot be observed by matching. */
  lemma {:induction false} FusionKeepsMatch(optimise: bool, mode: Mode, minA: nat, maxA: nat, minB: nat, maxB: nat,
                                            content: Nodes, before: Nodes, after: Nodes, s: Subject)
    requires !mode.Possessive? && Bounds(minA, maxA) && Bounds(minB, maxB)
    requires var apart := Sequence(Append(before, InTurn(mode, minA, maxA, minB, maxB, content, after)));
      Plain(apart) && WellNumberedNode(apart) && ExpressibleNode(apart) && SteadyNode(apart)
    requires var fused := Sequence(Append(before, Cons(CombineRepeat(mode, minA, maxA, minB, maxB, content), after)));
      Plain(fused) && WellNumberedNode(fused) && ExpressibleNode(fused) && SteadyNode(fused)
    ensures var apart := Sequence(Append(before, InTurn(mode, minA, maxA, minB, maxB, content, after)));
      var fused := Sequence(Append(before, Cons(CombineRepeat(mode, minA, maxA, minB, maxB, content), after)));
      Match(optimise, fused, s).Matched? <==> Match(optimise, apart, s).Matched?
  {
    var pair := InTurn(mode, minA, maxA, minB, maxB, content, Nil);
    var merged := CombineRepeat(mode, minA, maxA, minB, maxB, content);
    var apart, fused := Append(before, Append(pair, after)), Append(before, Cons(merged, after));
    assert Append(pair.tail, after) == Cons(pair.tail.head, after);
    assert Append(pair, after) == InTurn(mode, minA, maxA, minB, maxB, content, after);
    MatchIsExact(optimise, Sequence(apart), s);
    MatchIsExact(optimise, Sequence(fused), s);
    if SpansAll(apart, s, 0, |s|) {
      var m := SpansAppendInverse(before, Append(pair, after), s, 0, |s|);
      var e := SpansAppendInverse(pair, after, s, m, |s|);
      FusionSpans(mode, minA, maxA, minB, maxB, content, s, m, e);
      assert SpansAll(Cons(merged, after), s, m, |s|);
      SpansAppend(before, Cons(merged, after), s, 0, m, |s|);
    }
    if SpansAll(fused, s, 0, |s|) {
      var m := SpansAppendInverse(before, Cons(merged, after), s, 0, |s|);
      var e: nat :| Spans(merged, s, m, e) && SpansAll(after, s, e, |s|);
      FusionSpans(mode, minA, maxA, minB, maxB, content, s, m, e);
      SpansAppend(pair, after, s, m, e, |s|);
      SpansAppend(before, Append(pair, after), s, 0, m, |s|);
    }
  }

  /** Neither repeat is possessive, so they span what they cover. */
  lemma FusionSpans(mode: Mode, minA: nat, maxA: nat, minB: nat, maxB: nat, content: Nodes, s: Subject, i: nat, j: nat)
    requires !mode.Possessive? && Bounds(minA, maxA) && Bounds(minB, maxB)
    ensures Spans(CombineRepeat(mode, minA, maxA, minB, maxB, content), s, i, j)
       <==> SpansAll(InTurn(mode, minA, maxA, minB, maxB, content, Nil), s, i, j)
  {
    var pair, merged := InTurn(mode, minA, maxA, minB, maxB, content, Nil), CombineRepeat(mode, minA, maxA, minB, maxB, content);
    FusionCovers(mode, minA, maxA, minB, maxB, content, s, i, j);
    assert YieldingNode(pair.head) && YieldingNode(pair.tail.head) && Yielding(pair.tail.tail) && YieldingNode(merged);
    if Spans(merged, s, i, j) { SpansCovers(merged, s, i, j); }
    if SpansAll(pair, s, i, j) { SpansAllCovers(pair, s, i, j); }
    if Covers(merged, s, i, j) {
      CoversSpans(merged, s, i, j);
      CoversSpansAll(pair, s, i, j);
    }
  }

  // ----- possessive repeats -----

  /** The loops of two possessive repeats, one after the other. */
  function ExhaustTwice(optimise: bool, s: Subject, p: nat, r: Results, content: Nodes,
                        minA: nat, maxA: nat, minB: nat, maxB: nat, i: nat): Loop
    requires p <= |s|
  {
    match Exhaust(optimise, s, p, r, content, minA, maxA, i)
    case Stuck => Stuck
    case Spins => Spins
    case At(q, r') => Exhaust(optimise, s, q, r', content, minB, maxB, 0)
  }

  /** Past the first repeat's maximum, the merged loop is the second loop. */
  lemma {:induction false} SecondLoop(optimise: bool, s: Subject, p: nat, r: Results, content: Nodes,
                                      min: nat, maxA: nat, minB: nat, maxB: nat, i: nat)
    requires p <= |s| && GreedyFree(content) && maxA > 0
    requires (i > 0 && minB > 0 ==> min == maxA + minB) && (minB == 0 ==> min <= maxA)
    requires i == 0 ==> min <= maxA + minB && (minB > 0 ==> min == maxA + minB)
    ensures Exhaust(optimise, s, p, r, content, min, CombineMax(maxA, maxB), maxA + i)
         == Exhaust(optimise, s, p, r, content, minB, maxB, i)
    decreases |s| - p
  {
    IterationEnds(optimise, s, p, r, content);
    var o := Iteration(optimise, s, p, r, content);
    if o.Matched? {
      SecondLoop(optimise, s, o.results.end, o.results, content, min, maxA, minB, maxB, i + 1);
    }
  }

  /** The loop of the merged repeat is the two loops in turn. */
  lemma {:induction false} FusedLoop(optimise: bool, s: Subject, p: nat, r: Results, content: Nodes,
                                     minA: nat, maxA: nat, minB: nat, maxB: nat, min: nat, i: nat)
    requires p <= |s| && GreedyFree(content) && 0 < maxA && minA <= maxA && i <= maxA
    requires min == if minB == 0 then minA else maxA + minB
    ensures Exhaust(optimise, s, p, r, content, min, CombineMax(maxA, maxB), i)
         == ExhaustTwice(optimise, s, p, r, content, minA, maxA, minB, maxB, i)
    decreases maxA - i
  {
    if i == maxA {
      SecondLoop(optimise, s, p, r, content, min, maxA, minB, maxB, 0);
    } else {
      IterationEnds(optimise, s, p, r, content);
      var o := Iteration(optimise, s, p, r, content);
      if o.Matched? {
        FusedLoop(optimise, s, o.results.end, o.results, content, minA, maxA, minB, maxB, min, i + 1);
      }
    }
  }

  /** Once an unbounded loop is over, the content does not match any more. */
  lemma {:induction false} ExhaustedContent(optimise: bool, s: Subject, p: nat, r: Results, content: Nodes, min: nat, i: nat)
    requires p <= |s| && GreedyFree(content)
    ensures var l := Exhaust(optimise, s, p, r, content, min, 0, i);
      !l.Spins? && (l.At? ==> Iteration(optimise, s, l.position, l.results, content).NotMatched?)
    decreases |s| - p
  {
    IterationEnds(optimise, s, p, r, content);
    var o := Iteration(optimise, s, p, r, content);
    if o.Matched? { ExhaustedContent(optimise, s, o.results.end, o.results, content, min, i + 1); }
  }

  /** What follows the loop of a possessive repeat that started at `p`. */
  function After(optimise: bool, s: Subject, p: nat, blocked: bool, l: Loop, tail: Nodes): Outcome
    requires l.At? ==> p <= l.position <= |s|
  {
    match l
    case Stuck => NotMatched
    case Spins => Diverges
    case At(q, r) => Eval(optimise, s, q, blocked && p == q, r, tail)
  }

  lemma OnePossessive(optimise: bool, s: Subject, p: nat, blocked: bool, r: Results, min: nat, max: nat,
                      content: Nodes, tail: Nodes)
    requires p <= |s|
    ensures Eval(optimise, s, p, blocked, r, Cons(Repeat(Possessive, min, max, content), tail))
         == if !Bounds(min, max) then NotMatched
            else After(optimise, s, p, blocked, Exhaust(optimise, s, p, r, content, min, max, 0), tail)
  {
    assert Eval(optimise, s, p, blocked, r, Cons(Repeat(Possessive, min, max, content), tail))
        == EvalRepeat(optimise, s, p, blocked, r, Possessive, min, max, content, tail);
  }

  lemma {:induction false} TwoPossessives(optimise: bool, s: Subject, p: nat, blocked: bool, r: Results,
                                          minA: nat, maxA: nat, minB: nat, maxB: nat, content: Nodes, tail: Nodes)
    requires p <= |s| && GreedyFree(content) && Bounds(minA, maxA)
    ensures Eval(optimise, s, p, blocked, r, InTurn(Possessive, minA, maxA, minB, maxB, content, tail))
         == if !Bounds(minB, maxB) then NotMatched
            else After(optimise, s, p, blocked, ExhaustTwice(optimise, s, p, r, content, minA, maxA, minB, maxB, 0), tail)
  {
    OnePossessive(optimise, s, p, blocked, r, minA, maxA, content, Cons(Repeat(Possessive, minB, maxB, content), tail));
    NeverSpinsExhaust(optimise, s, p, r, content, minA, maxA, 0);
    var l := Exhaust(optimise, s, p, r, content, minA, maxA, 0);
    if l.At? {
      var At(q, r') := l;
      OnePossessive(optimise, s, q, blocked && p == q, r', minB, maxB, content, tail);
    }
  }

  /** Merged in the order they stand in, two possessive repeats do exactly what they did before: same decision, same
      spans, with everything that follows. */
  lemma {:induction false} PossessiveFusion(optimise: bool, s: Subject, p: nat, blocked: bool, r: Results,
                                            minA: nat, maxA: nat, minB: nat, maxB: nat, content: Nodes, tail: Nodes)
    requires p <= |s| && GreedyFree(content) && Bounds(minA, maxA)
    ensures Eval(optimise, s, p, blocked, r, Cons(CombineRepeat(Possessive, minA, maxA, minB, maxB, content), tail))
         == Eval(optimise, s, p, blocked, r, InTurn(Possessive, minA, maxA, minB, maxB, content, tail))
  {
    TwoPossessives(optimise, s, p, blocked, r, minA, maxA, minB, maxB, content, tail);
    if maxA == 0 {
      ExhaustedContent(optimise, s, p, r, content, minA, 0);
      if minB > 0 {
        Rejects(optimise, s, p, blocked, r, content, tail);
      } else {
        OnePossessive(optimise, s, p, blocked, r, minA, maxA, content, tail);
      }
    } else {
      var min := if minB == 0 then minA else maxA + minB;
      OnePossessive(optimise, s, p, blocked, r, min, CombineMax(maxA, maxB), content, tail);
      FusedLoop(optimise, s, p, r, content, minA, maxA, minB, maxB, min, 0);
    }
  }

  lemma Rejects(optimise: bool, s: Subject, p: nat, blocked: bool, r: Results, content: Nodes, tail: Nodes)
    requires p <= |s|
    ensures Eval(optimise, s, p, blocked, r, Cons(Sequence(Cons(Reject, content)), tail)).NotMatched?
  {
    var rest := Split(Cons(Reject, content), tail);
    assert Eval(optimise, s, p, blocked, r, rest).NotMatched?;
    assert Eval(optimise, s, p, blocked, r, Cons(Sequence(Cons(Reject, content)), tail))
        == Eval(optimise, s, p, blocked, r, rest);
  }
}
