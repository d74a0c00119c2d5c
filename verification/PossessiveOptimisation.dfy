/** The optimiser runs a greedy repeat as a possessive one when what it iterates and what follows it cannot start
    with the same character.  Nothing a caller can see changes, for patterns in which no repeat has a greedy repeat
    inside unless what it iterates cannot be empty; `OptimiserChangesNested` shows that the restriction is needed. */
module PossessiveOptimisation {
  import opened RegexSyntax
  import opened RegexEvaluator
  import opened RegexLanguage
  import opened RegexSoundness
  import opened FirstSets
  import opened FirstCoverage

  predicate GreedyFree(nodes: Nodes) {
    match nodes
    case Nil => true
    case Cons(head, tail) =>
      && GreedyFree(tail)
      && match head {
           case Sequence(parts) => GreedyFree(parts)
           case Select(options) => GreedyFree(options)
           case Capture(_, content) => GreedyFree(content)
           case Repeat(mode, _, _, content) => !mode.Greedy? && GreedyFree(content)
           case _ => true
         }
  }

  /** A repeat has a greedy repeat inside only if what it iterates cannot be empty. */
  predicate Tame(nodes: Nodes)
    decreases nodes, 0
  {
    match nodes
    case Nil => true
    case Cons(head, tail) => TameNode(head) && Tame(tail)
  }

  predicate TameNode(node: Node)
    decreases node, 0
  {
    match node
    case Sequence(parts) => Tame(parts)
    case Select(options) => Tame(options)
    case Capture(_, content) => Tame(content)
    case Repeat(_, _, _, content) => Settled(content)
    case _ => true
  }

  /** What a repeat may iterate. */
  predicate Settled(content: Nodes)
    decreases content, 1
  {
    GreedyFree(content) || (AllPlain(content) && WellNumbered(content) && !Nullable(content) && Tame(content))
  }

  lemma {:induction false} TameAppend(front: Nodes, back: Nodes)
    requires Tame(front) && Tame(back)
    ensures Tame(Append(front, back))
  {
    if front.Cons? { TameAppend(front.tail, back); }
  }

  lemma {:induction false} GreedyFreeIsTame(nodes: Nodes)
    requires GreedyFree(nodes)
    ensures Tame(nodes)
  {
    if nodes.Cons? {
      GreedyFreeIsTame(nodes.tail);
      match nodes.head
      case Sequence(parts) => GreedyFreeIsTame(parts);
      case Select(options) => GreedyFreeIsTame(options);
      case Capture(_, content) => GreedyFreeIsTame(content);
      case _ =>
    }
  }

  lemma {:induction false} GreedyFreeAppend(front: Nodes, back: Nodes)
    requires GreedyFree(front) && GreedyFree(back)
    ensures GreedyFree(Append(front, back))
  {
    if front.Cons? { GreedyFreeAppend(front.tail, back); }
  }

  // ----- without greedy repeats the option is never consulted -----

  lemma {:induction false} OptionUnused(s: Subject, p: nat, blocked: bool, r: Results, k: Nodes)
    requires p <= |s| && GreedyFree(k)
    ensures Eval(true, s, p, blocked, r, k) == Eval(false, s, p, blocked, r, k)
    decreases |s| - p, Sizes(k), 3, 2
  {
    if k.Cons? {
      var Cons(head, tail) := k;
      match head
      case One(item) => if p < |s| && MatchItem(item, s[p]) { OptionUnused(s, p + 1, false, r, tail); }
      case AnyChar => if p < |s| { OptionUnused(s, p + 1, false, r, tail); }
      case Text(chars) =>
        if TextAt(s, p, chars) { OptionUnused(s, p + |chars|, blocked && |chars| == 0, r, tail); }
      case Empty => OptionUnused(s, p, blocked, r, tail);
      case Sequence(parts) =>
        if parts.Cons? {
          SplitSizes(parts, tail);
          assert GreedyFree(Cons(Sequence(parts.tail), tail));
          OptionUnused(s, p, blocked, r, Split(parts, tail));
        }
      case Select(options) =>
        if options.Cons? {
          SelectSizes(options, tail);
          OptionUnused(s, p, blocked, r, Cons(options.head, tail));
          OptionUnused(s, p, blocked, r, Cons(Select(options.tail), tail));
        }
      case Capture(id, content) =>
        OpenSizes(id, content, tail);
        assert GreedyFree(Cons(NumericMark(id), tail));
        OptionUnused(s, p, blocked, r.StartCapture(id, p), Open(id, content, tail));
      case Repeat(mode, min, max, content) =>
        assert Sizes(k) == 3 + Sizes(content) + Sizes(tail);
        OptionUnusedRepeat(s, p, blocked, r, mode, min, max, content, tail);
      case AssertBegin => OptionUnused(s, p, blocked, r, tail);
      case AssertEnd => OptionUnused(s, p, blocked, r, tail);
      case Reject =>
      case StartMark => OptionUnused(s, p, blocked, r.(begin := p), tail);
      case NumericMark(id) => OptionUnused(s, p, blocked, r.EndCapture(id, p), tail);
      case EndMark => OptionUnused(s, p, blocked, r.(end := p), tail);
      case EndCycleMark =>
      case Accept =>
    }
  }

  lemma {:induction false} OptionUnusedRepeat(s: Subject, p: nat, blocked: bool, r: Results,
                                              mode: Mode, min: nat, max: nat, content: Nodes, tail: Nodes)
    requires p <= |s| && !mode.Greedy? && GreedyFree(content) && GreedyFree(tail)
    ensures EvalRepeat(true, s, p, blocked, r, mode, min, max, content, tail)
         == EvalRepeat(false, s, p, blocked, r, mode, min, max, content, tail)
    decreases |s| - p, 3 + Sizes(content) + Sizes(tail), 3, 0
  {
    if mode.Possessive? {
      OptionUnusedExhaust(s, p, r, content, min, max, 0);
      var l := Exhaust(true, s, p, r, content, min, max, 0);
      if l.At? { OptionUnused(s, l.position, blocked && p == l.position, l.results, tail); }
    } else {
      OptionUnusedIterate(s, p, r, content, min);
      var l := Iterate(true, s, p, r, content, min);
      if l.At? {
        OptionUnused(s, l.position, blocked && p == l.position, l.results, tail);
        OptionUnusedLazy(s, l.position, l.results, max, content, tail, min);
      }
    }
  }

  lemma {:induction false} OptionUnusedIteration(s: Subject, p: nat, r: Results, content: Nodes)
    requires p <= |s| && GreedyFree(content)
    ensures Iteration(true, s, p, r, content) == Iteration(false, s, p, r, content)
    decreases |s| - p, Sizes(content) + 1, 4
  {
    AppendSizes(content, Cons(EndCycleMark, Nil));
    GreedyFreeAppend(content, Cons(EndCycleMark, Nil));
    OptionUnused(s, p, true, r, Cycle(content));
  }

  lemma {:induction false} OptionUnusedIterate(s: Subject, p: nat, r: Results, content: Nodes, n: nat)
    requires p <= |s| && GreedyFree(content)
    ensures Iterate(true, s, p, r, content, n) == Iterate(false, s, p, r, content, n)
    decreases |s| - p, Sizes(content) + 1, 5, n
  {
    if n > 0 {
      OptionUnusedIteration(s, p, r, content);
      var o := Iteration(true, s, p, r, content);
      if o.Matched? { OptionUnusedIterate(s, o.results.end, o.results, content, n - 1); }
    }
  }

  lemma {:induction false} OptionUnusedExhaust(s: Subject, p: nat, r: Results, content: Nodes, min: nat, max: nat, i: nat)
    requires p <= |s| && GreedyFree(content)
    ensures Exhaust(true, s, p, r, content, min, max, i) == Exhaust(false, s, p, r, content, min, max, i)
    decreases |s| - p, Sizes(content) + 1, 5, if i < max then max - i else 0
  {
    if LessThanOrInfinite(max, i) {
      OptionUnusedIteration(s, p, r, content);
      var o := Iteration(true, s, p, r, content);
      if o.Matched? && !(o.results.end == p && max == 0) {
        OptionUnusedExhaust(s, o.results.end, o.results, content, min, max, i + 1);
      }
    }
  }

  lemma {:induction false} OptionUnusedLazy(s: Subject, p: nat, r: Results, max: nat, content: Nodes, tail: Nodes, i: nat)
    requires p <= |s| && GreedyFree(content) && GreedyFree(tail)
    ensures LazyRest(true, s, p, r, max, content, tail, i) == LazyRest(false, s, p, r, max, content, tail, i)
    decreases |s| - p, Sizes(content) + 2 + Sizes(tail), 2, if i < max then max - i else 0
  {
    if LessThanOrInfinite(max, i) {
      OptionUnusedIteration(s, p, r, content);
      var o := Iteration(true, s, p, r, content);
      if o.Matched? {
        OptionUnused(s, o.results.end, false, o.results, tail);
        if !(o.results.end == p && max == 0) {
          OptionUnusedLazy(s, o.results.end, o.results, max, content, tail, i + 1);
        }
      }
    } else {
      OptionUnused(s, p, false, r, tail);
    }
  }

  // ----- without greedy repeats an iteration consumes something -----

  lemma {:induction false} Progress(optimise: bool, s: Subject, p: nat, r: Results, k: Nodes)
    requires p <= |s| && GreedyFree(k) && EndsCycle(k)
    requires Eval(optimise, s, p, true, r, k).Matched?
    ensures p < Eval(optimise, s, p, true, r, k).results.end
    decreases |s| - p, Sizes(k), 3, 2
  {
    var Cons(head, tail) := k;
    match head
    case Text(chars) => if |chars| == 0 { Progress(optimise, s, p, r, tail); }
    case Empty => Progress(optimise, s, p, r, tail);
    case Sequence(parts) =>
      SplitSizes(parts, tail);
      assert GreedyFree(Cons(Sequence(parts.tail), tail));
      Progress(optimise, s, p, r, Split(parts, tail));
    case Select(options) =>
      SelectSizes(options, tail);
      if Eval(optimise, s, p, true, r, Cons(options.head, tail)).Matched? {
        Progress(optimise, s, p, r, Cons(options.head, tail));
      } else {
        Progress(optimise, s, p, r, Cons(Select(options.tail), tail));
      }
    case Capture(id, content) =>
      OpenSizes(id, content, tail);
      assert GreedyFree(Cons(NumericMark(id), tail));
      Progress(optimise, s, p, r.StartCapture(id, p), Open(id, content, tail));
    case Repeat(mode, min, max, content) =>
      assert Sizes(k) == 3 + Sizes(content) + Sizes(tail);
      ProgressRepeat(optimise, s, p, r, mode, min, max, content, tail);
    case AssertBegin => Progress(optimise, s, p, r, tail);
    case AssertEnd => Progress(optimise, s, p, r, tail);
    case StartMark => Progress(optimise, s, p, r.(begin := p), tail);
    case NumericMark(id) => Progress(optimise, s, p, r.EndCapture(id, p), tail);
    case EndMark => Progress(optimise, s, p, r.(end := p), tail);
    case _ =>
  }

  lemma {:induction false} ProgressRepeat(optimise: bool, s: Subject, p: nat, r: Results,
                                          mode: Mode, min: nat, max: nat, content: Nodes, tail: Nodes)
    requires p <= |s| && !mode.Greedy? && GreedyFree(content) && GreedyFree(tail) && EndsCycle(tail)
    requires EvalRepeat(optimise, s, p, true, r, mode, min, max, content, tail).Matched?
    ensures p < EvalRepeat(optimise, s, p, true, r, mode, min, max, content, tail).results.end
    decreases |s| - p, 3 + Sizes(content) + Sizes(tail), 3, 0
  {
    if mode.Possessive? {
      var At(q, r') := Exhaust(optimise, s, p, r, content, min, max, 0);
      if q == p { Progress(optimise, s, p, r', tail); }
    } else {
      var At(q, r') := Iterate(optimise, s, p, r, content, min);
      if min > 0 {
        ProgressIteration(optimise, s, p, r, content);
        var first := Iteration(optimise, s, p, r, content).results;
        assert Iterate(optimise, s, first.end, first, content, min - 1) == At(q, r');
      } else if q == p {
        if Eval(optimise, s, p, true, r', tail).Matched? {
          Progress(optimise, s, p, r', tail);
        } else {
          assert LazyRest(optimise, s, p, r', max, content, tail, 0).Matched?;
          ProgressIteration(optimise, s, p, r', content);
        }
      }
    }
  }

  lemma {:induction false} ProgressIteration(optimise: bool, s: Subject, p: nat, r: Results, content: Nodes)
    requires p <= |s| && GreedyFree(content)
    requires Iteration(optimise, s, p, r, content).Matched?
    ensures p < Iteration(optimise, s, p, r, content).results.end
    decreases |s| - p, Sizes(content) + 1, 4
  {
    AppendSizes(content, Cons(EndCycleMark, Nil));
    AppendEndsCycle(content, Cons(EndCycleMark, Nil));
    GreedyFreeAppend(content, Cons(EndCycleMark, Nil));
    Progress(optimise, s, p, r, Cycle(content));
  }

  // ----- so no evaluation of a flat stack diverges -----

  lemma {:induction false} NeverDiverges(optimise: bool, s: Subject, p: nat, blocked: bool, r: Results, k: Nodes)
    requires p <= |s| && Tame(k)
    ensures !Eval(optimise, s, p, blocked, r, k).Diverges?
    decreases |s| - p, Sizes(k), 3, 2
  {
    if k.Cons? {
      var Cons(head, tail) := k;
      match head
      case One(item) => if p < |s| && MatchItem(item, s[p]) { NeverDiverges(optimise, s, p + 1, false, r, tail); }
      case AnyChar => if p < |s| { NeverDiverges(optimise, s, p + 1, false, r, tail); }
      case Text(chars) =>
        if TextAt(s, p, chars) { NeverDiverges(optimise, s, p + |chars|, blocked && |chars| == 0, r, tail); }
      case Empty => NeverDiverges(optimise, s, p, blocked, r, tail);
      case Sequence(parts) => if parts.Cons? { NeverDivergesSequence(optimise, s, p, blocked, r, parts, tail); }
      case Select(options) => if options.Cons? { NeverDivergesSelect(optimise, s, p, blocked, r, options, tail); }
      case Capture(id, content) =>
        OpenSizes(id, content, tail);
        assert Tame(Cons(NumericMark(id), tail));
        NeverDiverges(optimise, s, p, blocked, r.StartCapture(id, p), Open(id, content, tail));
      case Repeat(mode, min, max, content) =>
        assert Sizes(k) == 3 + Sizes(content) + Sizes(tail);
        NeverDivergesRepeat(optimise, s, p, blocked, r, mode, min, max, content, tail);
      case AssertBegin => NeverDiverges(optimise, s, p, blocked, r, tail);
      case AssertEnd => NeverDiverges(optimise, s, p, blocked, r, tail);
      case Reject =>
      case StartMark => NeverDiverges(optimise, s, p, blocked, r.(begin := p), tail);
      case NumericMark(id) => NeverDiverges(optimise, s, p, blocked, r.EndCapture(id, p), tail);
      case EndMark => NeverDiverges(optimise, s, p, blocked, r.(end := p), tail);
      case EndCycleMark =>
      case Accept =>
    }
  }

  lemma {:induction false} NeverDivergesSequence(optimise: bool, s: Subject, p: nat, blocked: bool, r: Results,
                                                 parts: Nodes, tail: Nodes)
    requires p <= |s| && parts.Cons? && Tame(Cons(Sequence(parts), tail))
    ensures !Eval(optimise, s, p, blocked, r, Cons(Sequence(parts), tail)).Diverges?
    decreases |s| - p, Sizes(Cons(Sequence(parts), tail)), 3, 1
  {
    SplitSizes(parts, tail);
    assert TameNode(Sequence(parts)) && Tame(parts);
    assert TameNode(parts.head) && Tame(parts.tail);
    assert TameNode(Sequence(parts.tail));
    NeverDiverges(optimise, s, p, blocked, r, Split(parts, tail));
  }

  lemma {:induction false} NeverDivergesSelect(optimise: bool, s: Subject, p: nat, blocked: bool, r: Results,
                                               options: Nodes, tail: Nodes)
    requires p <= |s| && options.Cons? && Tame(Cons(Select(options), tail))
    ensures !Eval(optimise, s, p, blocked, r, Cons(Select(options), tail)).Diverges?
    decreases |s| - p, Sizes(Cons(Select(options), tail)), 3, 1
  {
    SelectSizes(options, tail);
    assert TameNode(Select(options)) && Tame(options);
    assert TameNode(options.head) && Tame(options.tail);
    assert TameNode(Select(options.tail));
    NeverDiverges(optimise, s, p, blocked, r, Cons(options.head, tail));
    NeverDiverges(optimise, s, p, blocked, r, Cons(Select(options.tail), tail));
  }

  lemma {:induction false} NeverDivergesRepeat(optimise: bool, s: Subject, p: nat, blocked: bool, r: Results,
                                               mode: Mode, min: nat, max: nat, content: Nodes, tail: Nodes)
    requires p <= |s| && Settled(content) && Tame(tail)
    ensures !EvalRepeat(optimise, s, p, blocked, r, mode, min, max, content, tail).Diverges?
    decreases |s| - p, 3 + Sizes(content) + Sizes(tail), 3, if mode.Greedy? then 1 else 0
  {
    if mode.Greedy? && optimise && !Collides(First([], content), First([], tail)) {
      NeverDivergesRepeat(optimise, s, p, blocked, r, Possessive, min, max, content, tail);
    } else if mode.Possessive? {
      NeverSpinsExhaust(optimise, s, p, r, content, min, max, 0);
      var l := Exhaust(optimise, s, p, r, content, min, max, 0);
      if l.At? { NeverDiverges(optimise, s, l.position, blocked && p == l.position, l.results, tail); }
    } else {
      NeverSpinsIterate(optimise, s, p, r, content, min);
      var l := Iterate(optimise, s, p, r, content, min);
      if l.At? {
        if mode.Greedy? {
          NeverDivergesGreedy(optimise, s, l.position, l.results, max, content, tail, min);
        } else {
          NeverDiverges(optimise, s, l.position, blocked && p == l.position, l.results, tail);
          NeverDivergesLazy(optimise, s, l.position, l.results, max, content, tail, min);
        }
      }
    }
  }

  /** An iteration ends, and has consumed something when it matched. */
  lemma {:induction false} IterationEnds(optimise: bool, s: Subject, p: nat, r: Results, content: Nodes)
    requires p <= |s| && Settled(content)
    ensures var o := Iteration(optimise, s, p, r, content); !o.Diverges? && (o.Matched? ==> p < o.results.end)
    decreases |s| - p, Sizes(content) + 1, 4
  {
    AppendSizes(content, Cons(EndCycleMark, Nil));
    CycleTame(content);
    NeverDiverges(optimise, s, p, true, r, Cycle(content));
    if Iteration(optimise, s, p, r, content).Matched? { IterationMoves(optimise, s, p, r, content); }
  }

  lemma CycleTame(content: Nodes)
    requires Settled(content)
    ensures Tame(Cycle(content))
  {
    var mark := Cons(EndCycleMark, Nil);
    if GreedyFree(content) {
      GreedyFreeAppend(content, mark);
      GreedyFreeIsTame(Cycle(content));
    } else {
      assert Tame(mark);
      TameAppend(content, mark);
    }
  }

  /** An iteration that matched has consumed something. */
  lemma IterationMoves(optimise: bool, s: Subject, p: nat, r: Results, content: Nodes)
    requires p <= |s| && Settled(content) && Iteration(optimise, s, p, r, content).Matched?
    ensures p < Iteration(optimise, s, p, r, content).results.end
  {
    if GreedyFree(content) {
      ProgressIteration(optimise, s, p, r, content);
    } else {
      IterationSound(optimise, s, p, r, content);
      var q: nat := Iteration(optimise, s, p, r, content).results.end;
      if q == p { EmptyIsNullable(content, s, p); }
    }
  }

  lemma {:induction false} NeverSpinsIterate(optimise: bool, s: Subject, p: nat, r: Results, content: Nodes, n: nat)
    requires p <= |s| && Settled(content)
    ensures !Iterate(optimise, s, p, r, content, n).Spins?
    decreases |s| - p, Sizes(content) + 1, 5, n
  {
    if n > 0 {
      IterationEnds(optimise, s, p, r, content);
      var o := Iteration(optimise, s, p, r, content);
      if o.Matched? { NeverSpinsIterate(optimise, s, o.results.end, o.results, content, n - 1); }
    }
  }

  lemma {:induction false} NeverSpinsExhaust(optimise: bool, s: Subject, p: nat, r: Results, content: Nodes,
                                             min: nat, max: nat, i: nat)
    requires p <= |s| && Settled(content)
    ensures !Exhaust(optimise, s, p, r, content, min, max, i).Spins?
    decreases |s| - p, Sizes(content) + 1, 5, if i < max then max - i else 0
  {
    if LessThanOrInfinite(max, i) {
      IterationEnds(optimise, s, p, r, content);
      var o := Iteration(optimise, s, p, r, content);
      if o.Matched? { NeverSpinsExhaust(optimise, s, o.results.end, o.results, content, min, max, i + 1); }
    }
  }

  lemma {:induction false} NeverDivergesGreedy(optimise: bool, s: Subject, p: nat, r: Results,
                                               max: nat, content: Nodes, tail: Nodes, i: nat)
    requires p <= |s| && Settled(content) && Tame(tail)
    ensures !GreedyRest(optimise, s, p, r, max, content, tail, i).Diverges?
    decreases |s| - p, Sizes(content) + 2 + Sizes(tail), 2, if i < max then max - i else 0
  {
    NeverDiverges(optimise, s, p, false, r, tail);
    if LessThanOrInfinite(max, i) {
      IterationEnds(optimise, s, p, r, content);
      var o := Iteration(optimise, s, p, r, content);
      if o.Matched? { NeverDivergesGreedy(optimise, s, o.results.end, o.results, max, content, tail, i + 1); }
    }
  }

  lemma {:induction false} NeverDivergesLazy(optimise: bool, s: Subject, p: nat, r: Results,
                                             max: nat, content: Nodes, tail: Nodes, i: nat)
    requires p <= |s| && Settled(content) && Tame(tail)
    ensures !LazyRest(optimise, s, p, r, max, content, tail, i).Diverges?
    decreases |s| - p, Sizes(content) + 2 + Sizes(tail), 2, if i < max then max - i else 0
  {
    if LessThanOrInfinite(max, i) {
      IterationEnds(optimise, s, p, r, content);
      var o := Iteration(optimise, s, p, r, content);
      if o.Matched? {
        NeverDiverges(optimise, s, o.results.end, false, o.results, tail);
        NeverDivergesLazy(optimise, s, o.results.end, o.results, max, content, tail, i + 1);
      }
    } else {
      NeverDiverges(optimise, s, p, false, r, tail);
    }
  }
}
