/** With and without the greedy optimisation, the evaluation of a whole pattern gives the same outcome: the same
    decision, the same spans, and no divergence. */
module OptimiserInvisible {
  import opened RegexSyntax
  import opened RegexEvaluator
  import opened RegexLanguage
  import opened RegexSoundness
  import opened FirstSets
  import opened FirstCoverage
  import opened PossessiveOptimisation

  const ENDING := Cons(AssertEnd, Cons(EndMark, Cons(Accept, Nil)))
  const CYCLE_ENDING := Cons(EndCycleMark, Nil)

  /** The stacks that the evaluation of a whole pattern goes through, or the evaluation of one iteration of a repeat. */
  predicate StackOf(k: Nodes, cycle: bool) {
    k == (if cycle then CYCLE_ENDING else ENDING) ||
    (k.Cons? && (Plain(k.head) || k.head.NumericMark?) && StackOf(k.tail, cycle))
  }

  /** What the theorem asks of a stack. */
  predicate Eligible(k: Nodes, cycle: bool) {
    StackOf(k, cycle) && Tame(k) && WellNumbered(k) && ExpressibleNodes(k)
  }

  /** What it asks of the content of a repeat. */
  predicate Repeatable(content: Nodes) {
    AllPlain(content) && Settled(content) && WellNumbered(content) && ExpressibleNodes(content)
  }

  /** The flag against an empty iteration cannot make a difference: something was consumed and it is clear, or the rest of
      the iteration cannot be empty. */
  ghost predicate Guarded(s: Subject, p: nat, b: bool, c: bool, k: Nodes, cycle: bool) {
    cycle ==> (p > 0 && !b && !c) || !CoversAll(k, s, p, p)
  }

  lemma {:induction false} StackWellEnded(k: Nodes, cycle: bool)
    requires StackOf(k, cycle)
    ensures WellEnded(k)
  {
    if k != ENDING && k != CYCLE_ENDING { StackWellEnded(k.tail, cycle); }
  }

  lemma {:induction false} CycleEnds(k: Nodes)
    requires StackOf(k, true)
    ensures EndsCycle(k)
  {
    if k != CYCLE_ENDING { CycleEnds(k.tail); }
  }

  /** What an accepted stack covers: all that is left of the subject, or the iteration. */
  lemma {:induction false} StackCovers(optimise: bool, s: Subject, p: nat, blocked: bool, r: Results, k: Nodes, cycle: bool)
    returns (j: nat)
    requires p <= |s| && StackOf(k, cycle) && WellNumbered(k)
    requires Eval(optimise, s, p, blocked, r, k).Matched?
    ensures p <= j <= |s| && CoversAll(k, s, p, j)
    ensures if cycle then Eval(optimise, s, p, blocked, r, k).results.end == j else j == |s|
    decreases k
  {
    if k == ENDING {
      j := |s|;
      assert CoversAll(Cons(Accept, Nil), s, p, p) by { assert CoversAll(Nil, s, p, p); }
      assert CoversAll(Cons(EndMark, Cons(Accept, Nil)), s, p, p);
    } else if k == CYCLE_ENDING {
      j := p;
      assert CoversAll(Nil, s, p, p);
    } else if k.head.NumericMark? {
      j := StackCovers(optimise, s, p, blocked, r.EndCapture(k.head.id, p), k.tail, cycle);
    } else {
      var m, b, after := Peel(optimise, s, p, blocked, r, k);
      j := StackCovers(optimise, s, m, b, after, k.tail, cycle);
    }
  }

  lemma {:induction false} FirstExpressible(l: seq<Lead>, k: Nodes)
    requires AllLeadsExpressible(l) && ExpressibleNodes(k)
    ensures AllLeadsExpressible(First(l, k))
    decreases Sizes(k)
  {
    if k.Cons? {
      var Cons(head, tail) := k;
      match head
      case One(item) =>
        if item.CharSet? { SpreadExpressible(item.items); }
      case Text(chars) => if |chars| == 0 { FirstExpressible(l, tail); }
      case Sequence(parts) =>
        AppendSizes(parts, tail); assert Sizes(k) == 1 + 2 * Sizes(parts) + Sizes(tail);
        AppendExpressible(parts, tail);
        FirstExpressible(l, Append(parts, tail));
      case Select(options) =>
        if options.Cons? {
          SelectSizes(options, tail);
          assert ExpressibleNode(head) && ExpressibleNodes(options);
          assert ExpressibleNode(options.head) && ExpressibleNode(Select(options.tail));
          FirstExpressible(l, Cons(options.head, tail));
          FirstExpressible(First(l, Cons(options.head, tail)), Cons(Select(options.tail), tail));
        }
      case Capture(_, content) =>
        AppendSizes(content, tail); assert Sizes(k) == 3 + 2 * Sizes(content) + Sizes(tail);
        AppendExpressible(content, tail);
        FirstExpressible(l, Append(content, tail));
      case Repeat(mode, min, max, content) =>
        AppendSizes(content, tail); assert Sizes(k) == 3 + Sizes(content) + Sizes(tail);
        AppendExpressible(content, tail);
        FirstExpressible(l, Append(content, tail));
        FirstExpressible(l, tail);
        FirstExpressible(First(l, Append(content, tail)), tail);
        FirstExpressible(First(l, tail), Append(content, tail));
      case AnyChar =>
      case AssertEnd =>
      case EndMark =>
      case EndCycleMark =>
      case Accept =>
      case _ => FirstExpressible(l, tail);
    }
  }

  lemma {:induction false} SpreadExpressible(items: Items)
    requires AllExpressible(items)
    ensures AllLeadsExpressible(Spread(items))
  {
    if items.MoreItems? { SpreadExpressible(items.rest); }
  }

  // ----- rests of an iteration that consume nothing -----

  /** The rest of an iteration can be left out, wherever it stands. */
  predicate Skippable(node: Node) {
    match node
    case Text(chars) => |chars| == 0
    case Empty => true
    case Sequence(parts) => parts.Cons? && AllSkippable(parts)
    case Select(options) => SomeSkippable(options)
    case Capture(_, content) => content.Cons? && AllSkippable(content)
    case Repeat(_, min, _, _) => min == 0
    case NumericMark(_) => true
    case EndCycleMark => true
    case _ => false
  }

  predicate AllSkippable(nodes: Nodes) {
    match nodes
    case Nil => true
    case Cons(head, tail) => Skippable(head) && AllSkippable(tail)
  }

  predicate SomeSkippable(nodes: Nodes) {
    match nodes
    case Nil => false
    case Cons(head, tail) => Skippable(head) || SomeSkippable(tail)
  }

  /** What consumed nothing at a place inside the subject can be left out. */
  lemma {:induction false} NothingIsSkipped(s: Subject, q: nat, b: bool, r: Results, k: Nodes)
    requires 0 < q < |s| && StackOf(k, true) && Tame(k) && WellNumbered(k)
    requires Eval(false, s, q, b, r, k).Matched? && Eval(false, s, q, b, r, k).results.end == q
    ensures AllSkippable(k)
    decreases Sizes(k), 1
  {
    CycleEnds(k);
    var Cons(head, tail) := k;
    if k != CYCLE_ENDING {
      CycleEnds(tail);
      match head
      case Text(chars) => NothingIsSkipped(s, q, b && |chars| == 0, r, tail);
      case Empty => NothingIsSkipped(s, q, b, r, tail);
      case NumericMark(id) => NothingIsSkipped(s, q, b, r.EndCapture(id, q), tail);
      case Sequence(parts) =>
        SplitSizes(parts, tail);
        SplitStack(parts, tail, true);
        NothingIsSkipped(s, q, b, r, Split(parts, tail));
        if parts.tail.Cons? { assert Skippable(Sequence(parts.tail)) && AllSkippable(parts.tail); }
        assert AllSkippable(parts) && Skippable(head);
      case Select(options) => NothingIsSkippedSelect(s, q, b, r, options, tail);
      case Capture(id, content) =>
        OpenSizes(id, content, tail);
        OpenStack(id, content, tail, true);
        NothingIsSkipped(s, q, b, r.StartCapture(id, q), Open(id, content, tail));
      case Repeat(mode, min, max, content) =>
        var j, b', r' := Peel(false, s, q, b, r, k);
        NothingIsSkipped(s, q, b', r', tail);
        if min > 0 { AllMove(s, q, b, r, mode, min, max, content, tail); }
      case _ =>
    }
  }

  lemma {:induction false} NothingIsSkippedSelect(s: Subject, q: nat, b: bool, r: Results, options: Nodes, tail: Nodes)
    requires 0 < q < |s| && StackOf(Cons(Select(options), tail), true)
    requires Tame(Cons(Select(options), tail)) && WellNumbered(Cons(Select(options), tail))
    requires var o := Eval(false, s, q, b, r, Cons(Select(options), tail)); o.Matched? && o.results.end == q
    ensures AllSkippable(Cons(Select(options), tail))
    decreases Sizes(Cons(Select(options), tail)), 0
  {
    SelectSizes(options, tail);
    SelectStack(options, tail, true);
    var first := Cons(options.head, tail);
    if Eval(false, s, q, b, r, first).Matched? {
      NothingIsSkipped(s, q, b, r, first);
    } else {
      NothingIsSkippedSelect(s, q, b, r, options.tail, tail);
      assert AllSkippable(Cons(Select(options.tail), tail)) && Skippable(Select(options.tail));
    }
    assert Skippable(Select(options));
  }

  /** Compulsory iterations consume something. */
  lemma AllMove(s: Subject, p: nat, b: bool, r: Results, mode: Mode, min: nat, max: nat, content: Nodes, tail: Nodes)
    requires p <= |s| && min > 0 && Settled(content) && EndsCycle(tail)
    requires EvalRepeat(false, s, p, b, r, mode, min, max, content, tail).Matched?
    ensures p < EvalRepeat(false, s, p, b, r, mode, min, max, content, tail).results.end
  {
    IterationEnds(false, s, p, r, content);
    if !mode.Possessive? { IterateMoves(false, s, p, r, content, min); }
  }

  lemma {:induction false} IterateMoves(optimise: bool, s: Subject, p: nat, r: Results, content: Nodes, n: nat)
    requires p <= |s| && Settled(content) && Iterate(optimise, s, p, r, content, n).At?
    ensures n > 0 ==> p < Iterate(optimise, s, p, r, content, n).position
  {
    if n > 0 {
      IterationEnds(optimise, s, p, r, content);
      var o := Iteration(optimise, s, p, r, content);
      assert Iterate(optimise, s, p, r, content, n) == Iterate(optimise, s, o.results.end, o.results, content, n - 1);
    }
  }

  /** Where the rest of an iteration can be left out, it does not fail. */
  lemma {:induction false} SkippedMatches(optimise: bool, s: Subject, l: nat, r: Results, k: Nodes)
    requires l <= |s| && StackOf(k, true) && AllSkippable(k)
    ensures !Eval(optimise, s, l, false, r, k).NotMatched?
    decreases |s| - l, Sizes(k), 1
  {
    if k != CYCLE_ENDING {
      var Cons(head, tail) := k;
      assert Skippable(head) && AllSkippable(tail);
      match head
      case Text(chars) => SkippedMatches(optimise, s, l, r, tail);
      case Empty => SkippedMatches(optimise, s, l, r, tail);
      case NumericMark(id) => SkippedMatches(optimise, s, l, r.EndCapture(id, l), tail);
      case Sequence(parts) =>
        SplitSizes(parts, tail);
        SplitStack(parts, tail, true);
        assert AllSkippable(parts) && Skippable(parts.head) && AllSkippable(parts.tail);
        if parts.tail.Cons? { assert Skippable(Sequence(parts.tail)) && AllSkippable(Cons(Sequence(parts.tail), tail)); }
        SkippedMatches(optimise, s, l, r, Split(parts, tail));
      case Select(options) => SkippedSelectMatches(optimise, s, l, r, options, tail);
      case Capture(id, content) =>
        OpenSizes(id, content, tail);
        OpenStack(id, content, tail, true);
        assert AllSkippable(Cons(NumericMark(id), tail)) && Skippable(Sequence(content));
        SkippedMatches(optimise, s, l, r.StartCapture(id, l), Open(id, content, tail));
      case Repeat(mode, min, max, content) =>
        assert Sizes(k) == 3 + Sizes(content) + Sizes(tail);
        SkippedRepeatMatches(optimise, s, l, r, mode, max, content, tail);
    }
  }

  lemma {:induction false} SkippedSelectMatches(optimise: bool, s: Subject, l: nat, r: Results, options: Nodes, tail: Nodes)
    requires l <= |s| && StackOf(Cons(Select(options), tail), true) && SomeSkippable(options) && AllSkippable(tail)
    ensures !Eval(optimise, s, l, false, r, Cons(Select(options), tail)).NotMatched?
    decreases |s| - l, Sizes(Cons(Select(options), tail)), 0
  {
    SelectSizes(options, tail);
    SelectStack(options, tail, true);
    if Skippable(options.head) {
      SkippedMatches(optimise, s, l, r, Cons(options.head, tail));
    } else {
      SkippedSelectMatches(optimise, s, l, r, options.tail, tail);
    }
  }

  lemma {:induction false} SkippedRepeatMatches(optimise: bool, s: Subject, l: nat, r: Results, mode: Mode, max: nat,
                                                content: Nodes, tail: Nodes)
    requires l <= |s| && StackOf(tail, true) && AllSkippable(tail)
    ensures !EvalRepeat(optimise, s, l, false, r, mode, 0, max, content, tail).NotMatched?
    decreases |s| - l, Sizes(tail) + 1, if mode.Greedy? then 1 else 0
  {
    if mode.Greedy? && optimise && !Collides(First([], content), First([], tail)) {
      SkippedRepeatMatches(optimise, s, l, r, Possessive, max, content, tail);
    } else if mode.Possessive? {
      NeverStuck(optimise, s, l, r, content, max, 0);
      var e := Exhaust(optimise, s, l, r, content, 0, max, 0);
      if e.At? { SkippedMatches(optimise, s, e.position, e.results, tail); }
    } else {
      SkippedMatches(optimise, s, l, r, tail);
      assert Iterate(optimise, s, l, r, content, 0) == At(l, r);
      if mode.Greedy? {
        assert !GreedyRest(optimise, s, l, r, max, content, tail, 0).NotMatched?;
        assert AfterMinimum(optimise, s, l, false, l, r, mode, 0, max, content, tail) == GreedyRest(optimise, s, l, r, max, content, tail, 0);
      } else {
        assert !AfterMinimum(optimise, s, l, false, l, r, mode, 0, max, content, tail).NotMatched?;
      }
    }
  }

  lemma {:induction false} NeverStuck(optimise: bool, s: Subject, p: nat, r: Results, content: Nodes, max: nat, i: nat)
    requires p <= |s|
    ensures !Exhaust(optimise, s, p, r, content, 0, max, i).Stuck?
    decreases |s| - p, if i < max then max - i else 0
  {
    if LessThanOrInfinite(max, i) {
      var o := Iteration(optimise, s, p, r, content);
      if o.Matched? && !(o.results.end == p && max == 0) {
        NeverStuck(optimise, s, o.results.end, o.results, content, max, i + 1);
      }
    }
  }

  // ----- no way back -----

  /** Where one more iteration can consume something, the rest of the stack consumes nothing. */
  lemma {:induction false} NoFallBack(s: Subject, p: nat, r: Results, content: Nodes, tail: Nodes, other: Results, cycle: bool)
    requires p <= |s| && Eligible(tail, cycle)
    requires Repeatable(content)
    requires !Collides(First([], content), First([], tail))
    requires Iteration(true, s, p, r, content).Matched?
    ensures p < |s|
    ensures var o := Eval(false, s, p, false, other, tail);
      !o.Diverges? && (o.Matched? ==> cycle && o.results.end == p && CoversAll(tail, s, p, p))
  {
    IterationEnds(true, s, p, r, content);
    IterationSound(true, s, p, r, content);
    var q := Iteration(true, s, p, r, content).results.end;
    NeverDiverges(false, s, p, false, other, tail);
    if Eval(false, s, p, false, other, tail).Matched? {
      var j := StackCovers(false, s, p, false, other, tail, cycle);
      if p < j { BothConsume(s, p, q, j, content, tail, cycle); }
    }
  }

  /** Both start with the same character. */
  lemma {:induction false} BothConsume(s: Subject, p: nat, q: nat, j: nat, content: Nodes, tail: Nodes, cycle: bool)
    requires Repeatable(content) && Eligible(tail, cycle)
    requires p < q <= |s| && p < j <= |s| && CoversAll(content, s, p, q) && CoversAll(tail, s, p, j)
    ensures Collides(First([], content), First([], tail))
  {
    AppendWellEnded(content, Nil);
    AppendNil(content);
    AppendNil(tail);
    FirstCovers([], content, Nil, s, p, q);
    FirstExpressible([], content);
    FirstExpressible([], tail);
    StackWellEnded(tail, cycle);
    FirstCovers([], tail, Nil, s, p, j);
    CommonCharacterCollides(First([], content), First([], tail), s[p]);
  }

  /** So falling back does not help: if the rest fails behind the iterations, it fails before them. */
  lemma {:induction false} FallBackFails(s: Subject, p: nat, r: Results, content: Nodes, tail: Nodes, other: Results, cycle: bool,
                                         l: nat, behind: Results)
    requires p < l <= |s| && Eligible(tail, cycle) && Guarded(s, p, false, false, tail, cycle)
    requires Repeatable(content)
    requires !Collides(First([], content), First([], tail))
    requires Iteration(true, s, p, r, content).Matched?
    requires Eval(true, s, l, false, behind, tail).NotMatched?
    ensures Eval(false, s, p, false, other, tail).NotMatched?
  {
    NoFallBack(s, p, r, content, tail, other, cycle);
    if Eval(false, s, p, false, other, tail).Matched? {
      NothingIsSkipped(s, p, false, other, tail);
      SkippedMatches(true, s, l, behind, tail);
    }
  }

  /** The compulsory iterations of a possessive repeat, then the others. */
  lemma {:induction false} ExhaustInTwo(s: Subject, p: nat, r: Results, content: Nodes, min: nat, max: nat, i: nat)
    requires p <= |s| && Settled(content) && i <= min && (max == 0 || min <= max)
    ensures Exhaust(true, s, p, r, content, min, max, i)
         == match Iterate(true, s, p, r, content, min - i)
            case Stuck => Stuck
            case Spins => Spins
            case At(q, r') => Exhaust(true, s, q, r', content, min, max, min)
    decreases min - i
  {
    if i < min {
      IterationEnds(true, s, p, r, content);
      var o := Iteration(true, s, p, r, content);
      if o.Matched? { ExhaustInTwo(s, o.results.end, o.results, content, min, max, i + 1); }
    }
  }

  // ----- the theorem, stack by stack -----

  lemma {:induction false} Agree(s: Subject, p: nat, b: bool, c: bool, r: Results, k: Nodes, cycle: bool)
    requires p <= |s| && Eligible(k, cycle) && Guarded(s, p, b, c, k, cycle)
    ensures Eval(true, s, p, b, r, k) == Eval(false, s, p, c, r, k)
    decreases |s| - p, Sizes(k), 3, 2
  {
    if k == ENDING {
      AgreeEnding(s, p, b, c, r);
    } else if k == CYCLE_ENDING {
      assert CoversAll(Nil, s, p, p) && Covers(EndCycleMark, s, p, p);
    } else {
      var Cons(head, tail) := k;
      match head
      case One(item) => AgreeCharacter(s, p, b, c, r, head, tail, cycle);
      case AnyChar => AgreeCharacter(s, p, b, c, r, head, tail, cycle);
      case Text(chars) => AgreeText(s, p, b, c, r, chars, tail, cycle);
      case Sequence(parts) => if parts.Cons? { AgreeSequence(s, p, b, c, r, parts, tail, cycle); }
      case Select(options) => if options.Cons? { AgreeSelect(s, p, b, c, r, options, tail, cycle); }
      case Capture(id, content) => AgreeCapture(s, p, b, c, r, id, content, tail, cycle);
      case Repeat(mode, min, max, content) =>
        AgreeRepeat(s, p, b, c, r, mode, min, max, content, tail, cycle);
      case _ => AgreeSimple(s, p, b, c, r, head, tail, cycle);
    }
  }

  lemma {:induction false} AgreeCharacter(s: Subject, p: nat, b: bool, c: bool, r: Results, head: Node, tail: Nodes, cycle: bool)
    requires p <= |s| && Eligible(Cons(head, tail), cycle) && (head.One? || head.AnyChar?)
    ensures Eval(true, s, p, b, r, Cons(head, tail)) == Eval(false, s, p, c, r, Cons(head, tail))
    decreases |s| - p, Sizes(Cons(head, tail)), 3, 1
  {
    if p < |s| { Agree(s, p + 1, false, false, r, tail, cycle); }
  }

  lemma {:induction false} AgreeText(s: Subject, p: nat, b: bool, c: bool, r: Results, chars: seq<Code>, tail: Nodes, cycle: bool)
    requires p <= |s| && Eligible(Cons(Text(chars), tail), cycle) && Guarded(s, p, b, c, Cons(Text(chars), tail), cycle)
    ensures Eval(true, s, p, b, r, Cons(Text(chars), tail)) == Eval(false, s, p, c, r, Cons(Text(chars), tail))
    decreases |s| - p, Sizes(Cons(Text(chars), tail)), 3, 1
  {
    if TextAt(s, p, chars) {
      if |chars| == 0 {
        GuardedNext(s, p, b, c, Text(chars), tail, cycle);
        Agree(s, p, b, c, r, tail, cycle);
      } else {
        Agree(s, p + |chars|, false, false, r, tail, cycle);
      }
    }
  }

  /** A node that consumes nothing. */
  lemma {:induction false} AgreeSimple(s: Subject, p: nat, b: bool, c: bool, r: Results, head: Node, tail: Nodes, cycle: bool)
    requires p <= |s| && Eligible(Cons(head, tail), cycle) && Guarded(s, p, b, c, Cons(head, tail), cycle)
    requires Cons(head, tail) != ENDING && Cons(head, tail) != CYCLE_ENDING
    requires !head.Sequence? && !head.Select? && !head.Capture? && !head.Repeat? && !head.One? && !head.AnyChar? && !head.Text?
    ensures Eval(true, s, p, b, r, Cons(head, tail)) == Eval(false, s, p, c, r, Cons(head, tail))
    decreases |s| - p, Sizes(Cons(head, tail)), 3, 1
  {
    if Covers(head, s, p, p) { GuardedNext(s, p, b, c, head, tail, cycle); }
    match head
    case NumericMark(id) => Agree(s, p, b, c, r.EndCapture(id, p), tail, cycle);
    case Empty => Agree(s, p, b, c, r, tail, cycle);
    case AssertBegin => if p == 0 { Agree(s, p, b, c, r, tail, cycle); }
    case AssertEnd => if p == |s| { Agree(s, p, b, c, r, tail, cycle); }
    case Reject =>
    case _ => assert false;
  }

  /** Past a node that covers nothing. */
  lemma GuardedNext(s: Subject, p: nat, b: bool, c: bool, head: Node, tail: Nodes, cycle: bool)
    requires p <= |s| && Guarded(s, p, b, c, Cons(head, tail), cycle) && Covers(head, s, p, p)
    ensures Guarded(s, p, b, c, tail, cycle)
  {
  }

  lemma {:induction false} AgreeSequence(s: Subject, p: nat, b: bool, c: bool, r: Results, parts: Nodes, tail: Nodes, cycle: bool)
    requires p <= |s| && parts.Cons? && Eligible(Cons(Sequence(parts), tail), cycle)
    requires Guarded(s, p, b, c, Cons(Sequence(parts), tail), cycle)
    ensures Eval(true, s, p, b, r, Cons(Sequence(parts), tail)) == Eval(false, s, p, c, r, Cons(Sequence(parts), tail))
    decreases |s| - p, Sizes(Cons(Sequence(parts), tail)), 3, 1
  {
    SplitSizes(parts, tail);
    SplitEligible(parts, tail, cycle);
    if CoversAll(Split(parts, tail), s, p, p) { CoversUnsplit(parts, tail, s, p, p); }
    Agree(s, p, b, c, r, Split(parts, tail), cycle);
  }

  lemma {:induction false} CoversUnsplit(parts: Nodes, tail: Nodes, s: Subject, p: nat, j: nat)
    requires parts.Cons? && CoversAll(Split(parts, tail), s, p, j)
    ensures CoversAll(Cons(Sequence(parts), tail), s, p, j)
  {
    var m := HeadCovers(parts.head, Split(parts, tail).tail, s, p, j);
    var e: nat := m;
    if parts.tail.Cons? {
      e := HeadCovers(Sequence(parts.tail), tail, s, m, j);
      assert CoversAll(parts.tail, s, m, e);
    } else {
      CoversForward(parts.head, s, p, m);
      assert CoversAll(parts.tail, s, m, m);
    }
    assert CoversAll(parts, s, p, e);
    assert Covers(Sequence(parts), s, p, e);
  }

  lemma {:induction false} AgreeSelect(s: Subject, p: nat, b: bool, c: bool, r: Results, options: Nodes, tail: Nodes, cycle: bool)
    requires p <= |s| && options.Cons? && Eligible(Cons(Select(options), tail), cycle)
    requires Guarded(s, p, b, c, Cons(Select(options), tail), cycle)
    ensures Eval(true, s, p, b, r, Cons(Select(options), tail)) == Eval(false, s, p, c, r, Cons(Select(options), tail))
    decreases |s| - p, Sizes(Cons(Select(options), tail)), 3, 1
  {
    SelectSizes(options, tail);
    SelectEligible(options, tail, cycle);
    GuardedOptions(s, p, b, c, options, tail, cycle);
    Agree(s, p, b, c, r, Cons(options.head, tail), cycle);
    Agree(s, p, b, c, r, Cons(Select(options.tail), tail), cycle);
  }

  lemma {:induction false} GuardedOptions(s: Subject, p: nat, b: bool, c: bool, options: Nodes, tail: Nodes, cycle: bool)
    requires options.Cons? && Guarded(s, p, b, c, Cons(Select(options), tail), cycle)
    ensures Guarded(s, p, b, c, Cons(options.head, tail), cycle) && Guarded(s, p, b, c, Cons(Select(options.tail), tail), cycle)
  {
    if CoversAll(Cons(options.head, tail), s, p, p) {
      var m := HeadCovers(options.head, tail, s, p, p);
      assert Covers(Select(options), s, p, m);
    }
    if CoversAll(Cons(Select(options.tail), tail), s, p, p) {
      var m := HeadCovers(Select(options.tail), tail, s, p, p);
      assert CoversSome(options.tail, s, p, m) && Covers(Select(options), s, p, m);
    }
  }

  lemma {:induction false} AgreeCapture(s: Subject, p: nat, b: bool, c: bool, r: Results, id: nat, content: Nodes, tail: Nodes,
                                        cycle: bool)
    requires p <= |s| && Eligible(Cons(Capture(id, content), tail), cycle)
    requires Guarded(s, p, b, c, Cons(Capture(id, content), tail), cycle)
    ensures Eval(true, s, p, b, r, Cons(Capture(id, content), tail)) == Eval(false, s, p, c, r, Cons(Capture(id, content), tail))
    decreases |s| - p, Sizes(Cons(Capture(id, content), tail)), 3, 1
  {
    OpenSizes(id, content, tail);
    OpenEligible(id, content, tail, cycle);
    if CoversAll(Open(id, content, tail), s, p, p) { CoversUnopened(id, content, tail, s, p); }
    Agree(s, p, b, c, r.StartCapture(id, p), Open(id, content, tail), cycle);
  }

  lemma {:induction false} CoversUnopened(id: nat, content: Nodes, tail: Nodes, s: Subject, p: nat)
    requires CoversAll(Open(id, content, tail), s, p, p)
    ensures CoversAll(Cons(Capture(id, content), tail), s, p, p)
  {
    var m := HeadCovers(Sequence(content), Cons(NumericMark(id), tail), s, p, p);
    var e := HeadCovers(NumericMark(id), tail, s, m, p);
    assert Covers(Capture(id, content), s, p, m);
  }

  lemma {:induction false} AgreeEnding(s: Subject, p: nat, b: bool, c: bool, r: Results)
    requires p <= |s|
    ensures Eval(true, s, p, b, r, ENDING) == Eval(false, s, p, c, r, ENDING)
  {
    EndAccepted(true, s, p, b, r);
    EndAccepted(false, s, p, c, r);
  }

  lemma {:induction false} SplitStack(parts: Nodes, tail: Nodes, cycle: bool)
    requires parts.Cons? && StackOf(Cons(Sequence(parts), tail), cycle)
    ensures StackOf(Split(parts, tail), cycle)
    ensures Tame(Cons(Sequence(parts), tail)) ==> Tame(Split(parts, tail))
    ensures WellNumbered(Cons(Sequence(parts), tail)) ==> WellNumbered(Split(parts, tail))
  {
    var k, rest := Cons(Sequence(parts), tail), Sequence(parts.tail);
    assert Plain(k.head) && AllPlain(parts);
    if parts.tail.Cons? { assert Plain(rest) && StackOf(Cons(rest, tail), cycle); }
    if Tame(k) {
      assert TameNode(k.head) && Tame(parts) && TameNode(parts.head) && TameNode(rest) && Tame(Cons(rest, tail));
    }
    if WellNumbered(k) {
      assert WellNumberedNode(k.head) && WellNumbered(parts) && WellNumberedNode(parts.head);
      assert WellNumberedNode(rest) && WellNumbered(Cons(rest, tail));
    }
  }

  lemma {:induction false} SelectStack(options: Nodes, tail: Nodes, cycle: bool)
    requires options.Cons? && StackOf(Cons(Select(options), tail), cycle)
    ensures StackOf(Cons(options.head, tail), cycle) && StackOf(Cons(Select(options.tail), tail), cycle)
    ensures Tame(Cons(Select(options), tail)) ==> Tame(Cons(options.head, tail)) && Tame(Cons(Select(options.tail), tail))
    ensures WellNumbered(Cons(Select(options), tail)) ==>
      WellNumbered(Cons(options.head, tail)) && WellNumbered(Cons(Select(options.tail), tail))
  {
    var k, other := Cons(Select(options), tail), Select(options.tail);
    assert Plain(k.head) && AllPlain(options) && Plain(other);
    if Tame(k) { assert TameNode(k.head) && Tame(options) && TameNode(options.head) && TameNode(other); }
    if WellNumbered(k) {
      assert WellNumberedNode(k.head) && WellNumbered(options) && WellNumberedNode(options.head) && WellNumberedNode(other);
    }
  }

  lemma {:induction false} OpenStack(id: nat, content: Nodes, tail: Nodes, cycle: bool)
    requires StackOf(Cons(Capture(id, content), tail), cycle)
    ensures StackOf(Open(id, content, tail), cycle)
    ensures Tame(Cons(Capture(id, content), tail)) ==> Tame(Open(id, content, tail))
    ensures WellNumbered(Cons(Capture(id, content), tail)) ==> WellNumbered(Open(id, content, tail))
  {
    var k, mark := Cons(Capture(id, content), tail), Cons(NumericMark(id), tail);
    assert Plain(k.head) && AllPlain(content) && StackOf(mark, cycle) && Plain(Sequence(content));
    if Tame(k) { assert TameNode(k.head) && Tame(content) && Tame(mark) && TameNode(Sequence(content)); }
    if WellNumbered(k) { assert WellNumberedNode(k.head) && WellNumbered(content) && WellNumbered(mark); }
  }

  lemma {:induction false} SplitEligible(parts: Nodes, tail: Nodes, cycle: bool)
    requires parts.Cons? && Eligible(Cons(Sequence(parts), tail), cycle)
    ensures Eligible(Split(parts, tail), cycle)
  {
    SplitStack(parts, tail, cycle);
    assert ExpressibleNode(Sequence(parts)) && ExpressibleNodes(parts) && ExpressibleNode(parts.head);
    if parts.tail.Cons? { assert ExpressibleNode(Sequence(parts.tail)) && ExpressibleNodes(Cons(Sequence(parts.tail), tail)); }
  }

  lemma {:induction false} SelectEligible(options: Nodes, tail: Nodes, cycle: bool)
    requires options.Cons? && Eligible(Cons(Select(options), tail), cycle)
    ensures Eligible(Cons(options.head, tail), cycle) && Eligible(Cons(Select(options.tail), tail), cycle)
  {
    SelectStack(options, tail, cycle);
    assert ExpressibleNode(Select(options)) && ExpressibleNodes(options);
    assert ExpressibleNode(options.head) && ExpressibleNode(Select(options.tail));
  }

  lemma {:induction false} OpenEligible(id: nat, content: Nodes, tail: Nodes, cycle: bool)
    requires Eligible(Cons(Capture(id, content), tail), cycle)
    ensures Eligible(Open(id, content, tail), cycle)
  {
    OpenStack(id, content, tail, cycle);
    assert ExpressibleNode(Capture(id, content)) && ExpressibleNodes(content) && ExpressibleNode(Sequence(content));
    assert ExpressibleNodes(Cons(NumericMark(id), tail));
  }

  // ----- iterations -----

  lemma {:induction false} CycleEligible(content: Nodes)
    requires Repeatable(content)
    ensures Eligible(Cycle(content), true)
  {
    CycleTame(content);
    AppendExpressible(content, CYCLE_ENDING);
    PlainStack(content);
  }

  lemma {:induction false} PlainStack(content: Nodes)
    requires AllPlain(content) && WellNumbered(content)
    ensures StackOf(Cycle(content), true) && WellNumbered(Cycle(content))
  {
    if content.Cons? { PlainStack(content.tail); }
  }

  /** One iteration, evaluated with the optimiser and without. */
  lemma {:induction false} AgreeIteration(s: Subject, p: nat, r: Results, content: Nodes)
    requires p <= |s| && Repeatable(content)
    ensures Iteration(true, s, p, r, content) == Iteration(false, s, p, r, content)
    decreases |s| - p, Sizes(content) + 1, 4
  {
    if GreedyFree(content) {
      OptionUnusedIteration(s, p, r, content);
    } else {
      AppendSizes(content, CYCLE_ENDING);
      CycleEligible(content);
      if CoversAll(Cycle(content), s, p, p) { CycleIsNotEmpty(content, s, p); }
      Agree(s, p, true, true, r, Cycle(content), true);
    }
  }

  lemma {:induction false} CycleIsNotEmpty(content: Nodes, s: Subject, p: nat)
    requires CoversAll(Cycle(content), s, p, p)
    ensures Nullable(content)
  {
    var m := CoversAppendInverse(content, CYCLE_ENDING, s, p, p);
    AllForward(content, s, p, m);
    AllForward(CYCLE_ENDING, s, m, p);
    EmptyIsNullable(content, s, p);
  }

  lemma {:induction false} AgreeIterate(s: Subject, p: nat, r: Results, content: Nodes, n: nat)
    requires p <= |s| && Repeatable(content)
    ensures Iterate(true, s, p, r, content, n) == Iterate(false, s, p, r, content, n)
    decreases |s| - p, Sizes(content) + 1, 5, n
  {
    if n > 0 {
      AgreeIteration(s, p, r, content);
      var o := Iteration(true, s, p, r, content);
      if o.Matched? { AgreeIterate(s, o.results.end, o.results, content, n - 1); }
    }
  }

  lemma {:induction false} AgreeLoop(s: Subject, p: nat, r: Results, content: Nodes, min: nat, max: nat, i: nat)
    requires p <= |s| && Repeatable(content)
    ensures Exhaust(true, s, p, r, content, min, max, i) == Exhaust(false, s, p, r, content, min, max, i)
    decreases |s| - p, Sizes(content) + 1, 5, if i < max then max - i else 0
  {
    if LessThanOrInfinite(max, i) {
      AgreeIteration(s, p, r, content);
      var o := Iteration(true, s, p, r, content);
      if o.Matched? && !(o.results.end == p && max == 0) {
        AgreeLoop(s, o.results.end, o.results, content, min, max, i + 1);
      }
    }
  }

  // ----- repeats -----

  /** Behind a repeat that started at `p` and iterated up to `q`. */
  lemma {:induction false} GuardedBehind(s: Subject, p: nat, b: bool, c: bool, q: nat, mode: Mode, min: nat, max: nat,
                                         content: Nodes, tail: Nodes, cycle: bool)
    requires p <= q <= |s| && Guarded(s, p, b, c, Cons(Repeat(mode, min, max, content), tail), cycle)
    requires p == q ==> min == 0
    ensures Guarded(s, q, b && p == q, c && p == q, tail, cycle) && Guarded(s, q, b && p == q, false, tail, cycle)
    ensures Guarded(s, q, false, false, tail, cycle)
  {
    if p == q {
      assert CoversTimes(content, 0, s, p, p);
      assert Covers(Repeat(mode, min, max, content), s, p, p);
    }
  }

  lemma {:induction false} AgreeRepeat(s: Subject, p: nat, b: bool, c: bool, r: Results,
                                       mode: Mode, min: nat, max: nat, content: Nodes, tail: Nodes, cycle: bool)
    requires p <= |s| && Eligible(Cons(Repeat(mode, min, max, content), tail), cycle)
    requires Guarded(s, p, b, c, Cons(Repeat(mode, min, max, content), tail), cycle)
    ensures Eval(true, s, p, b, r, Cons(Repeat(mode, min, max, content), tail))
         == Eval(false, s, p, c, r, Cons(Repeat(mode, min, max, content), tail))
    decreases |s| - p, Sizes(Cons(Repeat(mode, min, max, content), tail)), 3, 1
  {
    var k := Cons(Repeat(mode, min, max, content), tail);
    assert Sizes(k) == 3 + Sizes(content) + Sizes(tail);
    assert Plain(k.head) && TameNode(k.head) && WellNumberedNode(k.head) && ExpressibleNode(k.head);
    if max != 0 && min > max {
    } else if mode.Possessive? {
      AgreeExhaust(s, p, b, c, r, min, max, content, tail, cycle);
    } else if mode.Greedy? && !Collides(First([], content), First([], tail)) {
      AgreeOptimised(s, p, b, c, r, min, max, content, tail, cycle);
    } else {
      AgreeCounted(s, p, b, c, r, mode, min, max, content, tail, cycle);
    }
  }

  lemma {:induction false} AgreeExhaust(s: Subject, p: nat, b: bool, c: bool, r: Results,
                                        min: nat, max: nat, content: Nodes, tail: Nodes, cycle: bool)
    requires p <= |s| && Eligible(tail, cycle) && Repeatable(content)
    requires Guarded(s, p, b, c, Cons(Repeat(Possessive, min, max, content), tail), cycle)
    ensures EvalRepeat(true, s, p, b, r, Possessive, min, max, content, tail)
         == EvalRepeat(false, s, p, c, r, Possessive, min, max, content, tail)
    decreases |s| - p, 3 + Sizes(content) + Sizes(tail), 2, 0
  {
    AgreeLoop(s, p, r, content, min, max, 0);
    var l := Exhaust(true, s, p, r, content, min, max, 0);
    if (max == 0 || min <= max) && l.At? {
      assert Guarded(s, l.position, b && p == l.position, c && p == l.position, tail, cycle) by {
        ExhaustMoves(s, p, r, content, min, max);
        GuardedBehind(s, p, b, c, l.position, Possessive, min, max, content, tail, cycle);
      }
      Agree(s, l.position, b && p == l.position, c && p == l.position, l.results, tail, cycle);
    }
  }

  lemma {:induction false} ExhaustMoves(s: Subject, p: nat, r: Results, content: Nodes, min: nat, max: nat)
    requires p <= |s| && Settled(content) && (max == 0 || min <= max) && Exhaust(true, s, p, r, content, min, max, 0).At?
    ensures Exhaust(true, s, p, r, content, min, max, 0).position == p ==> min == 0
  {
    IterationEnds(true, s, p, r, content);
    var o := Iteration(true, s, p, r, content);
    if o.Matched? && min > 0 {
      assert Exhaust(true, s, p, r, content, min, max, 0) == Exhaust(true, s, o.results.end, o.results, content, min, max, 1);
    }
  }

  /** A lazy repeat, or a greedy one that the optimiser leaves alone. */
  lemma {:induction false} AgreeCounted(s: Subject, p: nat, b: bool, c: bool, r: Results,
                                        mode: Mode, min: nat, max: nat, content: Nodes, tail: Nodes, cycle: bool)
    requires p <= |s| && Eligible(tail, cycle) && Repeatable(content) && !mode.Possessive?
    requires mode.Greedy? ==> Collides(First([], content), First([], tail))
    requires Guarded(s, p, b, c, Cons(Repeat(mode, min, max, content), tail), cycle)
    ensures EvalRepeat(true, s, p, b, r, mode, min, max, content, tail)
         == EvalRepeat(false, s, p, c, r, mode, min, max, content, tail)
    decreases |s| - p, 3 + Sizes(content) + Sizes(tail), 2, 0
  {
    AgreeIterate(s, p, r, content, min);
    var l := Iterate(true, s, p, r, content, min);
    if l.At? {
      IterateMoves(true, s, p, r, content, min);
      GuardedBehind(s, p, b, c, l.position, mode, min, max, content, tail, cycle);
      AgreeAfterMinimum(s, p, b, c, l.position, l.results, mode, min, max, content, tail, cycle);
    }
  }

  lemma {:induction false} AgreeAfterMinimum(s: Subject, p: nat, b: bool, c: bool, q: nat, r: Results,
                                             mode: Mode, min: nat, max: nat, content: Nodes, tail: Nodes, cycle: bool)
    requires p <= q <= |s| && Eligible(tail, cycle) && Repeatable(content)
    requires Guarded(s, q, b && p == q, c && p == q, tail, cycle) && Guarded(s, q, false, false, tail, cycle)
    ensures AfterMinimum(true, s, p, b, q, r, mode, min, max, content, tail)
         == AfterMinimum(false, s, p, c, q, r, mode, min, max, content, tail)
    decreases |s| - q, Sizes(content) + 2 + Sizes(tail), 3, 0
  {
    if mode.Greedy? {
      AgreeGreedy(s, q, r, max, content, tail, min, cycle);
    } else {
      Agree(s, q, b && p == q, c && p == q, r, tail, cycle);
      AgreeLazy(s, q, r, max, content, tail, min, cycle);
    }
  }

  /** Where the optimiser steps in. */
  lemma {:induction false} AgreeOptimised(s: Subject, p: nat, b: bool, c: bool, r: Results,
                                          min: nat, max: nat, content: Nodes, tail: Nodes, cycle: bool)
    requires p <= |s| && Eligible(tail, cycle) && Repeatable(content)
    requires (max == 0 || min <= max) && !Collides(First([], content), First([], tail))
    requires Guarded(s, p, b, c, Cons(Repeat(Greedy, min, max, content), tail), cycle)
    ensures EvalRepeat(true, s, p, b, r, Possessive, min, max, content, tail)
         == EvalRepeat(false, s, p, c, r, Greedy, min, max, content, tail)
    decreases |s| - p, 3 + Sizes(content) + Sizes(tail), 2, 0
  {
    AgreeIterate(s, p, r, content, min);
    PossessiveInTwo(s, p, b, r, min, max, content, tail);
    var l := Iterate(true, s, p, r, content, min);
    if l.At? {
      IterateMoves(true, s, p, r, content, min);
      GuardedBehind(s, p, b, c, l.position, Greedy, min, max, content, tail, cycle);
      AgreePossessive(s, p, b, l.position, l.results, min, max, content, tail, min, cycle);
    }
  }

  /** The possessive repeat, by its compulsory iterations and the others. */
  lemma PossessiveInTwo(s: Subject, p: nat, b: bool, r: Results, min: nat, max: nat, content: Nodes, tail: Nodes)
    requires p <= |s| && Settled(content) && (max == 0 || min <= max)
    ensures EvalRepeat(true, s, p, b, r, Possessive, min, max, content, tail) ==
      match Iterate(true, s, p, r, content, min)
      case Stuck => NotMatched
      case Spins => Diverges
      case At(q, r') =>
        match Exhaust(true, s, q, r', content, min, max, min)
        case Stuck => NotMatched
        case Spins => Diverges
        case At(l, behind) => Eval(true, s, l, b && p == l, behind, tail)
  {
    ExhaustInTwo(s, p, r, content, min, max, 0);
  }

  /** An iteration is the same with the optimiser and without, and consumes something. */
  lemma {:induction false} IterationAgrees(s: Subject, p: nat, r: Results, content: Nodes)
    requires p <= |s| && Repeatable(content)
    ensures Iteration(true, s, p, r, content) == Iteration(false, s, p, r, content)
    ensures var o := Iteration(true, s, p, r, content); !o.Diverges? && (o.Matched? ==> p < o.results.end)
    decreases |s| - p, Sizes(content) + 1, 5, 0
  {
    AgreeIteration(s, p, r, content);
    IterationEnds(true, s, p, r, content);
  }

  lemma {:induction false} AgreeLazy(s: Subject, p: nat, r: Results, max: nat, content: Nodes, tail: Nodes, i: nat, cycle: bool)
    requires p <= |s| && Eligible(tail, cycle) && Repeatable(content) && Guarded(s, p, false, false, tail, cycle)
    ensures LazyRest(true, s, p, r, max, content, tail, i) == LazyRest(false, s, p, r, max, content, tail, i)
    decreases |s| - p, Sizes(content) + 2 + Sizes(tail), 2, if i < max then max - i else 0
  {
    if LessThanOrInfinite(max, i) {
      var o := Iteration(true, s, p, r, content);
      IterationAgrees(s, p, r, content);
      if o.Matched? {
        var end := o.results.end;
        assert Guarded(s, end, false, false, tail, cycle);
        Agree(s, end, false, false, o.results, tail, cycle);
        AgreeLazy(s, end, o.results, max, content, tail, i + 1, cycle);
      }
    } else {
      Agree(s, p, false, false, r, tail, cycle);
    }
  }

  lemma {:induction false} AgreeGreedy(s: Subject, p: nat, r: Results, max: nat, content: Nodes, tail: Nodes, i: nat, cycle: bool)
    requires p <= |s| && Eligible(tail, cycle) && Repeatable(content) && Guarded(s, p, false, false, tail, cycle)
    ensures GreedyRest(true, s, p, r, max, content, tail, i) == GreedyRest(false, s, p, r, max, content, tail, i)
    decreases |s| - p, Sizes(content) + 2 + Sizes(tail), 2, if i < max then max - i else 0
  {
    assert Eval(true, s, p, false, r, tail) == Eval(false, s, p, false, r, tail) by {
      Agree(s, p, false, false, r, tail, cycle);
    }
    if LessThanOrInfinite(max, i) {
      IterationAgrees(s, p, r, content);
      var o := Iteration(true, s, p, r, content);
      if o.Matched? { AgreeGreedy(s, o.results.end, o.results, max, content, tail, i + 1, cycle); }
    }
  }

  /** After the compulsory iterations: exhausting the content and going on is what falling back step by step finds. */
  lemma {:induction false} AgreePossessive(s: Subject, p: nat, b: bool, q: nat, r: Results,
                                           min: nat, max: nat, content: Nodes, tail: Nodes, i: nat, cycle: bool)
    requires p <= q <= |s| && Eligible(tail, cycle) && min <= i
    requires Repeatable(content)
    requires !Collides(First([], content), First([], tail))
    requires Guarded(s, q, b && p == q, false, tail, cycle) && Guarded(s, q, false, false, tail, cycle)
    ensures var l := Exhaust(true, s, q, r, content, min, max, i);
      l.At? && Eval(true, s, l.position, b && p == l.position, l.results, tail)
            == GreedyRest(false, s, q, r, max, content, tail, i)
    decreases |s| - q, Sizes(content) + 2 + Sizes(tail), 2, if i < max then max - i else 0
  {
    IterationAgrees(s, q, r, content);
    var o := Iteration(true, s, q, r, content);
    if LessThanOrInfinite(max, i) && o.Matched? {
      var end := o.results.end;
      GuardedLater(s, p, b, end, tail, cycle);
      AgreePossessive(s, p, b, end, o.results, min, max, content, tail, i + 1, cycle);
      var l := Exhaust(true, s, end, o.results, content, min, max, i + 1);
      if Eval(true, s, l.position, false, l.results, tail).NotMatched? {
        FallBackFails(s, q, r, content, tail, r, cycle, l.position, l.results);
      }
      OneMore(s, q, r, min, max, content, tail, i);
    } else {
      NoMore(s, q, r, min, max, content, tail, i);
      Agree(s, q, b && p == q, false, r, tail, cycle);
    }
  }

  lemma GuardedLater(s: Subject, p: nat, b: bool, q: nat, tail: Nodes, cycle: bool)
    requires p < q
    ensures Guarded(s, q, b && p == q, false, tail, cycle) && Guarded(s, q, false, false, tail, cycle)
  {
  }

  /** No more iteration. */
  lemma NoMore(s: Subject, q: nat, r: Results, min: nat, max: nat, content: Nodes, tail: Nodes, i: nat)
    requires q <= |s| && min <= i && (LessThanOrInfinite(max, i) ==> Iteration(true, s, q, r, content).NotMatched?)
    requires Iteration(true, s, q, r, content) == Iteration(false, s, q, r, content)
    ensures Exhaust(true, s, q, r, content, min, max, i) == At(q, r)
    ensures GreedyRest(false, s, q, r, max, content, tail, i) == Eval(false, s, q, false, r, tail)
  {
  }

  /** One more iteration, in the possessive loop and in the recursion that can fall back. */
  lemma OneMore(s: Subject, q: nat, r: Results, min: nat, max: nat, content: Nodes, tail: Nodes, i: nat)
    requires q <= |s| && LessThanOrInfinite(max, i) && Iteration(true, s, q, r, content) == Iteration(false, s, q, r, content)
    requires var o := Iteration(true, s, q, r, content); o.Matched? && q < o.results.end
    ensures var o := Iteration(true, s, q, r, content).results;
      && Exhaust(true, s, q, r, content, min, max, i) == Exhaust(true, s, o.end, o, content, min, max, i + 1)
      && GreedyRest(false, s, q, r, max, content, tail, i) ==
           var deeper := GreedyRest(false, s, o.end, o, max, content, tail, i + 1);
           if deeper.NotMatched? then Eval(false, s, q, false, r, tail) else deeper
  {
  }

  /** What a pattern has to satisfy: its groups are numbered as the grammar does, its sets can be written, and where a
      repeat contains a greedy repeat, what it iterates cannot be empty. */
  predicate Optimisable(re: Node) {
    Plain(re) && WellNumberedNode(re) && ExpressibleNode(re) && TameNode(re)
  }

  /** CTRE_DISABLE_GREEDY_OPT changes nothing. */
  lemma {:induction false} OptimiserIsInvisible(re: Node, s: Subject)
    requires Optimisable(re)
    ensures Match(true, re, s) == Match(false, re, s)
  {
    assert Eligible(ENDING, false) by {
      assert TameNode(AssertEnd) && Tame(Cons(EndMark, Cons(Accept, Nil)));
    }
    assert Eligible(Cons(re, ENDING), false);
    Agree(s, 0, false, false, Results(0, 0, map[]), Cons(re, ENDING), false);
  }

  /** No evaluation of such a pattern goes on for ever. */
  lemma {:induction false} MatchTerminates(optimise: bool, re: Node, s: Subject)
    requires TameNode(re)
    ensures !Match(optimise, re, s).Diverges?
  {
    assert Tame(Cons(EndMark, Cons(Accept, Nil)));
    assert Tame(ENDING) && Tame(Cons(re, ENDING));
    NeverDiverges(optimise, s, 0, false, Results(0, 0, map[]), MatchStack(re));
  }
}
