/** Backtracking finds every match: for patterns whose repeats iterate something of a fixed positive width, `match`
    decides the language of the pattern, with the optimiser on or off.

    Width is what makes iterations safe to commit to: the evaluator never revises an iteration once it is over
    (`IterationsAreFinal` shows a match that it misses for that reason). */
module RegexExactness {
  import opened RegexSyntax
  import opened RegexEvaluator
  import opened RegexLanguage
  import opened RegexSoundness
  import opened RegexSpans
  import opened FirstCoverage
  import opened PossessiveOptimisation
  import opened OptimiserInvisible

  datatype Width = Varies | Fixed(w: nat)

  /** The one length of everything that the nodes cover, when there is one. */
  function NodeWidth(node: Node): Width {
    match node
    case One(_) => Fixed(1)
    case AnyChar => Fixed(1)
    case Text(chars) => Fixed(|chars|)
    case Empty => Fixed(0)
    case Sequence(parts) => WidthOf(parts)
    case Select(options) => CommonWidth(options)
    case Capture(_, content) => WidthOf(content)
    case _ => Varies
  }

  function WidthOf(nodes: Nodes): Width {
    match nodes
    case Nil => Fixed(0)
    case Cons(head, tail) =>
      match (NodeWidth(head), WidthOf(tail))
      case (Fixed(a), Fixed(b)) => Fixed(a + b)
      case _ => Varies
  }

  function CommonWidth(options: Nodes): Width {
    match options
    case Nil => Varies
    case Cons(head, tail) => if tail.Nil? || CommonWidth(tail) == NodeWidth(head) then NodeWidth(head) else Varies
  }

  lemma {:induction false} WidthCovers(nodes: Nodes, s: Subject, i: nat, j: nat)
    requires WidthOf(nodes).Fixed? && CoversAll(nodes, s, i, j)
    ensures j == i + WidthOf(nodes).w
  {
    if nodes.Cons? {
      var m: nat :| Covers(nodes.head, s, i, m) && CoversAll(nodes.tail, s, m, j);
      NodeWidthCovers(nodes.head, s, i, m);
      WidthCovers(nodes.tail, s, m, j);
    }
  }

  lemma {:induction false} NodeWidthCovers(node: Node, s: Subject, i: nat, j: nat)
    requires NodeWidth(node).Fixed? && Covers(node, s, i, j)
    ensures j == i + NodeWidth(node).w
  {
    match node
    case Sequence(parts) => WidthCovers(parts, s, i, j);
    case Select(options) => CommonWidthCovers(options, s, i, j);
    case Capture(_, content) => WidthCovers(content, s, i, j);
    case _ =>
  }

  lemma {:induction false} CommonWidthCovers(options: Nodes, s: Subject, i: nat, j: nat)
    requires CommonWidth(options).Fixed? && CoversSome(options, s, i, j)
    ensures j == i + CommonWidth(options).w
  {
    if Covers(options.head, s, i, j) {
      NodeWidthCovers(options.head, s, i, j);
    } else {
      CommonWidthCovers(options.tail, s, i, j);
    }
  }

  /** Every repeat iterates something of a fixed, positive width. */
  predicate SteadyNode(node: Node) {
    match node
    case Sequence(parts) => Steady(parts)
    case Select(options) => Steady(options)
    case Capture(_, content) => Steady(content)
    case Repeat(_, _, _, content) => WidthOf(content).Fixed? && WidthOf(content).w > 0
    case _ => true
  }

  predicate Steady(nodes: Nodes) {
    match nodes
    case Nil => true
    case Cons(head, tail) => SteadyNode(head) && Steady(tail)
  }

  lemma {:induction false} WidthIsGreedyFree(nodes: Nodes)
    requires WidthOf(nodes).Fixed?
    ensures GreedyFree(nodes) && Steady(nodes) && Yielding(nodes)
    decreases Sizes(nodes), 0
  {
    if nodes.Cons? {
      WidthIsGreedyFree(nodes.tail);
      assert Sizes(nodes) == Size(nodes.head) + Sizes(nodes.tail);
      match nodes.head
      case Sequence(parts) => WidthIsGreedyFree(parts);
      case Select(options) => CommonWidthIsGreedyFree(options);
      case Capture(_, content) => WidthIsGreedyFree(content);
      case _ =>
    }
  }

  lemma {:induction false} CommonWidthIsGreedyFree(options: Nodes)
    requires CommonWidth(options).Fixed?
    ensures GreedyFree(options) && Steady(options) && Yielding(options)
    decreases Sizes(options), 1
  {
    assert Sizes(Cons(options.head, Nil)) == Size(options.head);
    WidthIsGreedyFree(Cons(options.head, Nil));
    if options.tail.Cons? { CommonWidthIsGreedyFree(options.tail); }
  }

  lemma {:induction false} SteadyIsTame(nodes: Nodes)
    requires Steady(nodes)
    ensures Tame(nodes)
  {
    if nodes.Cons? {
      SteadyIsTame(nodes.tail);
      match nodes.head
      case Sequence(parts) => SteadyIsTame(parts);
      case Select(options) => SteadyIsTame(options);
      case Capture(_, content) => SteadyIsTame(content);
      case Repeat(_, _, _, content) => WidthIsGreedyFree(content);
      case _ =>
    }
  }

  /** A stack that can accept: one accepting mark, at its end. */
  predicate Accepting(k: Nodes) {
    k.Cons? &&
    if k.tail.Nil? then k.head.Accept? || k.head.EndCycleMark?
    else !k.head.Accept? && !k.head.EndCycleMark? && Accepting(k.tail)
  }

  predicate Ready(k: Nodes) {
    Accepting(k) && Steady(k) && ReadyNodes(k)
  }

  /** Plain nodes, well numbered, and marks. */
  predicate ReadyNodes(k: Nodes) {
    match k
    case Nil => true
    case Cons(head, tail) =>
      ReadyNodes(tail) && ((Plain(head) && WellNumberedNode(head)) || head.NumericMark? || head.EndMark? ||
        head.EndCycleMark? || head.Accept?)
  }

  lemma {:induction false} CycleReady(content: Nodes)
    requires AllPlain(content) && WellNumbered(content) && Steady(content)
    ensures Ready(Cycle(content)) && EndsCycle(Cycle(content))
  {
    if content.Cons? {
      assert Plain(content.head) && WellNumberedNode(content.head) && SteadyNode(content.head);
      CycleReady(content.tail);
    }
  }

  lemma {:induction false} SplitReady(parts: Nodes, tail: Nodes)
    requires parts.Cons? && Ready(Cons(Sequence(parts), tail))
    ensures Ready(Split(parts, tail))
  {
    var k := Cons(Sequence(parts), tail);
    assert SteadyNode(k.head) && Plain(k.head) && WellNumberedNode(k.head);
    assert Steady(parts) && AllPlain(parts) && WellNumbered(parts);
    assert SteadyNode(parts.head) && Plain(parts.head) && WellNumberedNode(parts.head);
    if parts.tail.Cons? {
      var rest := Cons(Sequence(parts.tail), tail);
      assert SteadyNode(rest.head) && Plain(rest.head) && WellNumberedNode(rest.head);
      assert Ready(rest);
    }
  }

  lemma {:induction false} SelectReady(options: Nodes, tail: Nodes)
    requires options.Cons? && Ready(Cons(Select(options), tail))
    ensures Ready(Cons(options.head, tail)) && Ready(Cons(Select(options.tail), tail))
  {
    var k := Cons(Select(options), tail);
    assert SteadyNode(k.head) && Plain(k.head) && WellNumberedNode(k.head);
    assert Steady(options) && AllPlain(options) && WellNumbered(options);
    assert SteadyNode(options.head) && Plain(options.head) && WellNumberedNode(options.head);
    var other := Select(options.tail);
    assert SteadyNode(other) && Plain(other) && WellNumberedNode(other);
  }

  lemma {:induction false} OpenReady(id: nat, content: Nodes, tail: Nodes)
    requires Ready(Cons(Capture(id, content), tail))
    ensures Ready(Open(id, content, tail))
  {
    var k := Cons(Capture(id, content), tail);
    assert SteadyNode(k.head) && Plain(k.head) && WellNumberedNode(k.head);
    assert Ready(Cons(NumericMark(id), tail));
    var body := Sequence(content);
    assert SteadyNode(body) && Plain(body) && WellNumberedNode(body);
  }

  /** A stack that spans a part of the subject is accepted, unless it would be an empty iteration. */
  lemma {:induction false} Complete(s: Subject, p: nat, b: bool, r: Results, k: Nodes, j: nat)
    requires p <= |s| && Ready(k) && SpansAll(k, s, p, j)
    requires b && EndsCycle(k) ==> p < j
    ensures Eval(false, s, p, b, r, k).Matched?
    decreases |s| - p, Sizes(k), 3, 2
  {
    var Cons(head, tail) := k;
    var m: nat :| Spans(head, s, p, m) && SpansAll(tail, s, m, j);
    SpansForward(head, s, p, m);
    SpansAllForward(tail, s, m, j);
    match head
    case Sequence(parts) => CompleteSequence(s, p, b, r, parts, tail, m, j);
    case Select(options) => CompleteSelect(s, p, b, r, options, tail, m, j);
    case Capture(id, content) => CompleteCapture(s, p, b, r, id, content, tail, m, j);
    case Repeat(mode, min, max, content) => CompleteRepeat(s, p, b, r, mode, min, max, content, tail, m, j);
    case _ => CompleteSimple(s, p, b, r, head, tail, m, j);
  }

  /** A node without parts. */
  lemma {:induction false} CompleteSimple(s: Subject, p: nat, b: bool, r: Results, head: Node, tail: Nodes, m: nat, j: nat)
    requires p <= m <= |s| && Ready(Cons(head, tail)) && Spans(head, s, p, m) && SpansAll(tail, s, m, j)
    requires !head.Sequence? && !head.Select? && !head.Capture? && !head.Repeat?
    requires b && EndsCycle(Cons(head, tail)) ==> p < j
    ensures Eval(false, s, p, b, r, Cons(head, tail)).Matched?
    decreases |s| - p, Sizes(Cons(head, tail)), 3, 1
  {
    match head
    case One(item) => Complete(s, p + 1, false, r, tail, j);
    case AnyChar => Complete(s, p + 1, false, r, tail, j);
    case Text(chars) => Complete(s, m, b && |chars| == 0, r, tail, j);
    case Empty => Complete(s, p, b, r, tail, j);
    case AssertBegin => Complete(s, p, b, r, tail, j);
    case AssertEnd => Complete(s, p, b, r, tail, j);
    case NumericMark(id) => Complete(s, p, b, r.EndCapture(id, p), tail, j);
    case EndMark => Complete(s, p, b, r.(end := p), tail, j);
    case EndCycleMark =>
    case Accept =>
    case _ => assert false;
  }

  lemma {:induction false} CompleteSequence(s: Subject, p: nat, b: bool, r: Results, parts: Nodes, tail: Nodes, m: nat, j: nat)
    requires p <= |s| && Ready(Cons(Sequence(parts), tail)) && parts.Cons?
    requires SpansAll(parts, s, p, m) && SpansAll(tail, s, m, j)
    requires b && EndsCycle(tail) ==> p < j
    ensures Eval(false, s, p, b, r, Cons(Sequence(parts), tail)).Matched?
    decreases |s| - p, Sizes(Cons(Sequence(parts), tail)), 3, 1
  {
    SplitSizes(parts, tail);
    SplitReady(parts, tail);
    SpansSplit(parts, tail, s, p, m, j);
    Complete(s, p, b, r, Split(parts, tail), j);
  }

  lemma {:induction false} CompleteCapture(s: Subject, p: nat, b: bool, r: Results, id: nat, content: Nodes, tail: Nodes,
                                           m: nat, j: nat)
    requires p <= |s| && Ready(Cons(Capture(id, content), tail)) && content.Cons?
    requires SpansAll(content, s, p, m) && SpansAll(tail, s, m, j)
    requires b && EndsCycle(tail) ==> p < j
    ensures Eval(false, s, p, b, r, Cons(Capture(id, content), tail)).Matched?
    decreases |s| - p, Sizes(Cons(Capture(id, content), tail)), 3, 1
  {
    OpenSizes(id, content, tail);
    OpenReady(id, content, tail);
    SpansOpen(id, content, tail, s, p, m, j);
    assert EndsCycle(Open(id, content, tail)) <==> EndsCycle(tail);
    Complete(s, p, b, r.StartCapture(id, p), Open(id, content, tail), j);
  }

  lemma {:induction false} SpansOpen(id: nat, content: Nodes, tail: Nodes, s: Subject, p: nat, m: nat, j: nat)
    requires content.Cons? && SpansAll(content, s, p, m) && SpansAll(tail, s, m, j)
    ensures SpansAll(Open(id, content, tail), s, p, j)
  {
    SpansAllForward(tail, s, m, j);
    assert Spans(NumericMark(id), s, m, m);
    assert SpansAll(Cons(NumericMark(id), tail), s, m, j);
    assert Spans(Sequence(content), s, p, m);
  }

  lemma {:induction false} SpansSplit(parts: Nodes, tail: Nodes, s: Subject, p: nat, m: nat, j: nat)
    requires parts.Cons? && SpansAll(parts, s, p, m) && SpansAll(tail, s, m, j)
    ensures SpansAll(Split(parts, tail), s, p, j)
  {
    var a: nat :| Spans(parts.head, s, p, a) && SpansAll(parts.tail, s, a, m);
    if parts.tail.Cons? {
      assert Spans(Sequence(parts.tail), s, a, m);
      assert SpansAll(Cons(Sequence(parts.tail), tail), s, a, j);
    }
  }

  lemma {:induction false} CompleteSelect(s: Subject, p: nat, b: bool, r: Results, options: Nodes, tail: Nodes, m: nat, j: nat)
    requires p <= |s| && Ready(Cons(Select(options), tail))
    requires SpansSome(options, s, p, m) && SpansAll(tail, s, m, j)
    requires b && EndsCycle(tail) ==> p < j
    ensures Eval(false, s, p, b, r, Cons(Select(options), tail)).Matched?
    decreases |s| - p, Sizes(Cons(Select(options), tail)), 3, 1
  {
    SelectSizes(options, tail);
    SelectReady(options, tail);
    SteadyIsTame(Cons(options.head, tail));
    NeverDiverges(false, s, p, b, r, Cons(options.head, tail));
    if Spans(options.head, s, p, m) {
      assert SpansAll(Cons(options.head, tail), s, p, j);
      Complete(s, p, b, r, Cons(options.head, tail), j);
    } else {
      CompleteSelect(s, p, b, r, options.tail, tail, m, j);
    }
  }

  /** The content of a repeat of a steady pattern. */
  predicate Unit(content: Nodes) {
    && AllPlain(content) && WellNumbered(content)
    && WidthOf(content).Fixed? && WidthOf(content).w > 0
  }

  lemma {:induction false} CompleteIteration(s: Subject, p: nat, r: Results, content: Nodes, q: nat)
    requires p <= |s| && Unit(content) && CoversAll(content, s, p, q)
    ensures var o := Iteration(false, s, p, r, content); o.Matched? && o.results.end == q && p < q <= |s|
    decreases |s| - p, Sizes(content) + 1, 4
  {
    AppendSizes(content, Cons(EndCycleMark, Nil));
    WidthCovers(content, s, p, q);
    AllForward(content, s, p, q);
    WidthIsGreedyFree(content);
    CycleReady(content);
    CycleSpans(content, s, p, q);
    Complete(s, p, true, r, Cycle(content), q);
    IterationReaches(s, p, r, content);
  }

  lemma {:induction false} IterationReaches(s: Subject, p: nat, r: Results, content: Nodes)
    requires p <= |s| && Unit(content)
    ensures var o := Iteration(false, s, p, r, content); o.Matched? ==> o.results.end == p + WidthOf(content).w
  {
    if Iteration(false, s, p, r, content).Matched? {
      IterationSound(false, s, p, r, content);
      WidthCovers(content, s, p, Iteration(false, s, p, r, content).results.end);
    }
  }

  lemma {:induction false} CycleSpans(content: Nodes, s: Subject, p: nat, q: nat)
    requires Yielding(content) && CoversAll(content, s, p, q)
    ensures SpansAll(Cycle(content), s, p, q)
  {
    AllForward(content, s, p, q);
    CoversSpansAll(content, s, p, q);
    assert SpansAll(Nil, s, q, q) && Spans(EndCycleMark, s, q, q);
    SpansAppend(content, Cons(EndCycleMark, Nil), s, p, q, q);
  }

  /** Where the content covers nothing, an iteration fails. */
  lemma {:induction false} NoIteration(s: Subject, p: nat, r: Results, content: Nodes)
    requires p <= |s| && Unit(content) && GreedyFree(content)
    ensures Iteration(false, s, p, r, content).NotMatched? <==> forall q: nat :: !CoversAll(content, s, p, q)
    decreases |s| - p, Sizes(content) + 1, 5, 0
  {
    IterationEnds(false, s, p, r, content);
    if Iteration(false, s, p, r, content).Matched? {
      IterationSound(false, s, p, r, content);
      var q: nat := Iteration(false, s, p, r, content).results.end;
      assert CoversAll(content, s, p, q);
    }
    if !forall q: nat :: !CoversAll(content, s, p, q) {
      var q: nat :| CoversAll(content, s, p, q);
      CompleteIteration(s, p, r, content, q);
    }
  }

  lemma {:induction false} CompleteIterate(s: Subject, p: nat, r: Results, content: Nodes, n: nat, q: nat)
    requires p <= |s| && Unit(content) && CoversTimes(content, n, s, p, q)
    ensures var l := Iterate(false, s, p, r, content, n); l.At? && l.position == q
    decreases |s| - p, Sizes(content) + 1, 5, n
  {
    if n > 0 {
      var m: nat :| CoversAll(content, s, p, m) && CoversTimes(content, n - 1, s, m, q);
      AllForward(content, s, p, m);
      CompleteIteration(s, p, r, content, m);
      CompleteIterate(s, m, Iteration(false, s, p, r, content).results, content, n - 1, q);
    }
  }

  lemma {:induction false} CompleteRepeat(s: Subject, p: nat, b: bool, r: Results, mode: Mode, min: nat, max: nat,
                                          content: Nodes, tail: Nodes, m: nat, j: nat)
    requires p <= |s| && Ready(Cons(Repeat(mode, min, max, content), tail))
    requires Spans(Repeat(mode, min, max, content), s, p, m) && SpansAll(tail, s, m, j)
    requires b && EndsCycle(tail) ==> p < j
    ensures Eval(false, s, p, b, r, Cons(Repeat(mode, min, max, content), tail)).Matched?
    decreases |s| - p, Sizes(Cons(Repeat(mode, min, max, content), tail)), 3, 1
  {
    RepeatReady(mode, min, max, content, tail);
    assert Sizes(Cons(Repeat(mode, min, max, content), tail)) == 3 + Sizes(content) + Sizes(tail);
    assert Eval(false, s, p, b, r, Cons(Repeat(mode, min, max, content), tail))
        == EvalRepeat(false, s, p, b, r, mode, min, max, content, tail);
    var n: nat :| Iterates(mode, min, max, content, n, s, p, m);
    WidthIsGreedyFree(content);
    SteadyIsTame(tail);
    TimesForward(content, n, s, p, m);
    if mode.Possessive? {
      CompleteExhaust(s, p, r, content, min, max, 0, n, m);
      Complete(s, m, b && p == m, Exhaust(false, s, p, r, content, min, max, 0).results, tail, j);
    } else {
      CompleteCounted(s, p, b, r, mode, min, max, content, tail, n, m, j);
    }
  }

  lemma RepeatReady(mode: Mode, min: nat, max: nat, content: Nodes, tail: Nodes)
    requires Ready(Cons(Repeat(mode, min, max, content), tail))
    ensures Unit(content) && Ready(tail)
  {
    var k := Cons(Repeat(mode, min, max, content), tail);
    assert SteadyNode(k.head) && Plain(k.head) && WellNumberedNode(k.head);
  }

  /** A possessive loop goes exactly as far as it can. */
  lemma {:induction false} CompleteExhaust(s: Subject, p: nat, r: Results, content: Nodes, min: nat, max: nat,
                                           i: nat, d: nat, m: nat)
    requires p <= |s| && Unit(content) && GreedyFree(content)
    requires min <= i + d && (max == 0 || i + d <= max) && CoversTimes(content, d, s, p, m) && Final(max, content, i + d, s, m)
    ensures var l := Exhaust(false, s, p, r, content, min, max, i); l.At? && l.position == m
    decreases |s| - p, Sizes(content) + 1, 5, d + 1
  {
    if d == 0 {
      NoIteration(s, p, r, content);
    } else {
      var q: nat :| CoversAll(content, s, p, q) && CoversTimes(content, d - 1, s, q, m);
      CompleteIteration(s, p, r, content, q);
      CompleteExhaust(s, q, Iteration(false, s, p, r, content).results, content, min, max, i + 1, d - 1, m);
    }
  }

  /** A greedy or lazy repeat. */
  lemma {:induction false} CompleteCounted(s: Subject, p: nat, b: bool, r: Results, mode: Mode, min: nat, max: nat,
                                           content: Nodes, tail: Nodes, n: nat, m: nat, j: nat)
    requires p <= |s| && Unit(content) && Ready(tail) && Tame(tail) && GreedyFree(content) && !mode.Possessive?
    requires min <= n && (max == 0 || n <= max) && CoversTimes(content, n, s, p, m) && SpansAll(tail, s, m, j)
    requires b && EndsCycle(tail) ==> p < j
    ensures EvalRepeat(false, s, p, b, r, mode, min, max, content, tail).Matched?
    decreases |s| - p, 2 + Sizes(content) + Sizes(tail), 3, 0
  {
    var q := CoversTimesSplit(content, min, n - min, s, p, m);
    TimesForward(content, min, s, p, q);
    TimesForward(content, n - min, s, q, m);
    SpansAllForward(tail, s, m, j);
    CompleteIterate(s, p, r, content, min, q);
    var r' := Iterate(false, s, p, r, content, min).results;
    if mode.Greedy? {
      CompleteGreedy(s, q, r', max, content, tail, min, n - min, m, j);
    } else {
      NeverDiverges(false, s, q, b && p == q, r', tail);
      if n == min { Complete(s, q, b && p == q, r', tail, j); }
      else { CompleteLazy(s, q, r', max, content, tail, min, n - min, m, j); }
    }
  }

  lemma {:induction false} CompleteGreedy(s: Subject, p: nat, r: Results, max: nat, content: Nodes, tail: Nodes,
                                          i: nat, d: nat, m: nat, j: nat)
    requires p <= |s| && Unit(content) && Ready(tail) && Tame(tail) && GreedyFree(content)
    requires CoversTimes(content, d, s, p, m) && SpansAll(tail, s, m, j) && (max == 0 || i + d <= max)
    ensures GreedyRest(false, s, p, r, max, content, tail, i).Matched?
    decreases |s| - p, Sizes(content) + 2 + Sizes(tail), 2, if i < max then max - i else 0
  {
    NeverDivergesGreedy(false, s, p, r, max, content, tail, i);
    if d == 0 {
      Complete(s, p, false, r, tail, j);
    } else {
      var q: nat :| CoversAll(content, s, p, q) && CoversTimes(content, d - 1, s, q, m);
      CompleteIteration(s, p, r, content, q);
      CompleteGreedy(s, q, Iteration(false, s, p, r, content).results, max, content, tail, i + 1, d - 1, m, j);
    }
  }

  lemma {:induction false} CompleteLazy(s: Subject, p: nat, r: Results, max: nat, content: Nodes, tail: Nodes,
                                        i: nat, d: nat, m: nat, j: nat)
    requires p <= |s| && Unit(content) && Ready(tail) && Tame(tail) && GreedyFree(content)
    requires d > 0 && CoversTimes(content, d, s, p, m) && SpansAll(tail, s, m, j) && (max == 0 || i + d <= max)
    ensures LazyRest(false, s, p, r, max, content, tail, i).Matched?
    decreases |s| - p, Sizes(content) + 2 + Sizes(tail), 2, if i < max then max - i else 0
  {
    var q: nat :| CoversAll(content, s, p, q) && CoversTimes(content, d - 1, s, q, m);
    assert Iteration(false, s, p, r, content).Matched? && Iteration(false, s, p, r, content).results.end == q && p < q <= |s| by {
      CompleteIteration(s, p, r, content, q);
    }
    var r' := Iteration(false, s, p, r, content).results;
    if d == 1 {
      Complete(s, q, false, r', tail, j);
    } else {
      NeverDiverges(false, s, q, false, r', tail);
      CompleteLazy(s, q, r', max, content, tail, i + 1, d - 1, m, j);
    }
  }

  // ----- the other direction -----

  /** A node of a steady pattern. */
  predicate Part(node: Node) {
    Plain(node) && WellNumberedNode(node) && SteadyNode(node)
  }

  predicate Parts(nodes: Nodes) {
    AllPlain(nodes) && WellNumbered(nodes) && Steady(nodes)
  }

  /** A successful evaluation went through its first node: that node spans a part of the subject. */
  lemma {:induction false} PeelPart(s: Subject, p: nat, b: bool, r: Results, k: Nodes)
    returns (j: nat, b': bool, r': Results)
    requires p <= |s| && k.Cons? && Part(k.head) && Eval(false, s, p, b, r, k).Matched?
    ensures p <= j <= |s| && Spans(k.head, s, p, j)
    ensures Eval(false, s, j, b', r', k.tail) == Eval(false, s, p, b, r, k)
    decreases |s| - p, Sizes(k), 3, 0
  {
    var Cons(head, tail) := k;
    match head
    case Sequence(parts) => j, b', r' := PeelParts(s, p, b, r, parts, tail);
    case Select(options) => j, b', r' := PeelOptions(s, p, b, r, options, tail);
    case Capture(id, content) => j, b', r' := PeelGroup(s, p, b, r, id, content, tail);
    case Repeat(mode, min, max, content) =>
      j, b', r' := PeelIterations(s, p, b, r, mode, min, max, content, tail);
    case _ => j, b', r' := PeelSimple(s, p, b, r, k);
  }

  lemma {:induction false} PeelSimple(s: Subject, p: nat, b: bool, r: Results, k: Nodes)
    returns (j: nat, b': bool, r': Results)
    requires p <= |s| && k.Cons? && Part(k.head) && Eval(false, s, p, b, r, k).Matched?
    requires !k.head.Sequence? && !k.head.Select? && !k.head.Capture? && !k.head.Repeat?
    ensures p <= j <= |s| && Spans(k.head, s, p, j)
    ensures Eval(false, s, j, b', r', k.tail) == Eval(false, s, p, b, r, k)
  {
    j, b', r' := Peel(false, s, p, b, r, k);
  }

  lemma {:induction false} PeelGroup(s: Subject, p: nat, b: bool, r: Results, id: nat, content: Nodes, tail: Nodes)
    returns (j: nat, b': bool, r': Results)
    requires p <= |s| && Parts(content) && Eval(false, s, p, b, r, Cons(Capture(id, content), tail)).Matched?
    ensures p <= j <= |s| && content.Cons? && SpansAll(content, s, p, j)
    ensures Eval(false, s, j, b', r', tail) == Eval(false, s, p, b, r, Cons(Capture(id, content), tail))
    decreases |s| - p, Sizes(Cons(Capture(id, content), tail)), 2, 0
  {
    OpenSizes(id, content, tail);
    j, b', r' := PeelParts(s, p, b, r.StartCapture(id, p), content, Cons(NumericMark(id), tail));
    r' := r'.EndCapture(id, j);
  }

  lemma {:induction false} PeelParts(s: Subject, p: nat, b: bool, r: Results, parts: Nodes, tail: Nodes)
    returns (j: nat, b': bool, r': Results)
    requires p <= |s| && Parts(parts) && Eval(false, s, p, b, r, Cons(Sequence(parts), tail)).Matched?
    ensures p <= j <= |s| && parts.Cons? && SpansAll(parts, s, p, j)
    ensures Eval(false, s, j, b', r', tail) == Eval(false, s, p, b, r, Cons(Sequence(parts), tail))
    decreases |s| - p, Sizes(Cons(Sequence(parts), tail)), 2, 0
  {
    SplitSizes(parts, tail);
    var m, b1, r1 := PeelPart(s, p, b, r, Split(parts, tail));
    if parts.tail.Cons? {
      j, b', r' := PeelParts(s, m, b1, r1, parts.tail, tail);
    } else {
      j, b', r' := m, b1, r1;
      assert SpansAll(parts.tail, s, m, m);
    }
  }

  lemma {:induction false} PeelOptions(s: Subject, p: nat, b: bool, r: Results, options: Nodes, tail: Nodes)
    returns (j: nat, b': bool, r': Results)
    requires p <= |s| && Parts(options) && Eval(false, s, p, b, r, Cons(Select(options), tail)).Matched?
    ensures p <= j <= |s| && SpansSome(options, s, p, j)
    ensures Eval(false, s, j, b', r', tail) == Eval(false, s, p, b, r, Cons(Select(options), tail))
    decreases |s| - p, Sizes(Cons(Select(options), tail)), 2, 0
  {
    SelectSizes(options, tail);
    if Eval(false, s, p, b, r, Cons(options.head, tail)).Matched? {
      j, b', r' := PeelPart(s, p, b, r, Cons(options.head, tail));
    } else {
      j, b', r' := PeelOptions(s, p, b, r, options.tail, tail);
    }
  }

  lemma {:induction false} PeelIterations(s: Subject, p: nat, b: bool, r: Results, mode: Mode, min: nat, max: nat,
                                          content: Nodes, tail: Nodes)
    returns (j: nat, b': bool, r': Results)
    requires p <= |s| && Unit(content) && EvalRepeat(false, s, p, b, r, mode, min, max, content, tail).Matched?
    ensures p <= j <= |s| && Spans(Repeat(mode, min, max, content), s, p, j)
    ensures Eval(false, s, j, b', r', tail) == EvalRepeat(false, s, p, b, r, mode, min, max, content, tail)
  {
    if mode.Possessive? {
      var n := ExhaustSpans(s, p, r, content, min, max, 0);
      var At(q, after) := Exhaust(false, s, p, r, content, min, max, 0);
      j, b', r' := q, b && p == q, after;
      assert Iterates(mode, min, max, content, n, s, p, j);
    } else {
      j, b', r' := PeelRepeat(false, s, p, b, r, mode, min, max, content, tail);
      CoversSpans(Repeat(mode, min, max, content), s, p, j);
    }
  }

  /** A possessive loop that ends has gone as far as it could. */
  lemma {:induction false} ExhaustSpans(s: Subject, p: nat, r: Results, content: Nodes, min: nat, max: nat, i: nat)
    returns (n: nat)
    requires p <= |s| && Unit(content) && (max == 0 || (min <= max && i <= max))
    requires Exhaust(false, s, p, r, content, min, max, i).At?
    ensures min <= i + n && (max == 0 || i + n <= max)
    ensures var q := Exhaust(false, s, p, r, content, min, max, i).position;
      CoversTimes(content, n, s, p, q) && Final(max, content, i + n, s, q)
    decreases |s| - p
  {
    WidthIsGreedyFree(content);
    IterationEnds(false, s, p, r, content);
    NoIteration(s, p, r, content);
    if LessThanOrInfinite(max, i) && Iteration(false, s, p, r, content).Matched? {
      IterationSound(false, s, p, r, content);
      var after := Iteration(false, s, p, r, content).results;
      n := ExhaustSpans(s, after.end, after, content, min, max, i + 1);
      var q := Exhaust(false, s, p, r, content, min, max, i).position;
      assert CoversTimes(content, n, s, after.end, q) && CoversAll(content, s, p, after.end);
      n := n + 1;
    } else {
      n := 0;
      assert CoversTimes(content, 0, s, p, p);
    }
  }

  // ----- the whole subject -----

  lemma {:induction false} SpannedMatches(re: Node, s: Subject)
    requires Part(re) && Spans(re, s, 0, |s|)
    ensures Match(false, re, s).Matched?
  {
    EndingReady();
    EndingSpans(s);
    assert SpansAll(Cons(re, ENDING), s, 0, |s|);
    Complete(s, 0, false, Results(0, 0, map[]), Cons(re, ENDING), |s|);
  }

  lemma {:induction false} MatchedSpans(re: Node, s: Subject)
    requires Part(re) && Match(false, re, s).Matched?
    ensures Spans(re, s, 0, |s|)
  {
    var j, b, r := PeelPart(s, 0, false, Results(0, 0, map[]), Cons(re, ENDING));
    assert j == |s|;
  }

  /** Matching decides the language: it always ends, and it accepts a subject exactly when the pattern spans all of it. */
  lemma {:induction false} MatchIsExact(optimise: bool, re: Node, s: Subject)
    requires Plain(re) && WellNumberedNode(re) && ExpressibleNode(re) && SteadyNode(re)
    ensures !Match(optimise, re, s).Diverges?
    ensures Match(optimise, re, s).Matched? <==> Spans(re, s, 0, |s|)
  {
    SteadyIsTame(Cons(re, Nil));
    OptimiserIsInvisible(re, s);
    MatchTerminates(false, re, s);
    if Match(false, re, s).Matched? { MatchedSpans(re, s); }
    if Spans(re, s, 0, |s|) { SpannedMatches(re, s); }
  }

  /** Without possessive repeats that is the language in which modes do not count. */
  lemma {:induction false} MatchIsExactWithoutPossessive(optimise: bool, re: Node, s: Subject)
    requires Plain(re) && WellNumberedNode(re) && ExpressibleNode(re) && SteadyNode(re) && YieldingNode(re)
    ensures Match(optimise, re, s).Matched? <==> Covers(re, s, 0, |s|)
  {
    MatchIsExact(optimise, re, s);
    if Spans(re, s, 0, |s|) { SpansCovers(re, s, 0, |s|); }
    if Covers(re, s, 0, |s|) { CoversSpans(re, s, 0, |s|); }
  }

  lemma EndingReady()
    ensures Ready(ENDING) && !EndsCycle(ENDING)
  {
    var accepting := Cons(Accept, Nil);
    assert Ready(accepting) && !EndsCycle(accepting);
    var marking := Cons(EndMark, accepting);
    assert Ready(marking) && !EndsCycle(marking);
  }

  lemma EndingSpans(s: Subject)
    ensures SpansAll(ENDING, s, |s|, |s|)
  {
    var accepting := Cons(Accept, Nil);
    assert Spans(Accept, s, |s|, |s|) && SpansAll(Nil, s, |s|, |s|);
    assert Spans(EndMark, s, |s|, |s|) && SpansAll(accepting, s, |s|, |s|);
    assert Spans(AssertEnd, s, |s|, |s|) && SpansAll(Cons(EndMark, accepting), s, |s|, |s|);
  }
}
