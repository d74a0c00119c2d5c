/** What a pattern denotes when the mode of a repeat counts: a possessive repeat covers all that it can, and only that.
    Still no order of attempts, no continuation and no flags. */
module RegexSpans {
  import opened RegexSyntax
  import opened RegexEvaluator
  import opened RegexLanguage

  /** The number of iterations is allowed, and a possessive repeat stops only where it has to. */
  ghost predicate Iterates(mode: Mode, min: nat, max: nat, content: Nodes, n: nat, s: Subject, i: nat, j: nat) {
    && min <= n && (max == 0 || n <= max) && CoversTimes(content, n, s, i, j)
    && (mode.Possessive? ==> Final(max, content, n, s, j))
  }

  /** There is no room for one more iteration, or none is possible. */
  ghost predicate Final(max: nat, content: Nodes, n: nat, s: Subject, j: nat) {
    !LessThanOrInfinite(max, n) || forall q: nat :: !CoversAll(content, s, j, q)
  }

  ghost predicate Spans(node: Node, s: Subject, i: nat, j: nat) {
    match node
    case Sequence(parts) => parts.Cons? && SpansAll(parts, s, i, j)
    case Select(options) => SpansSome(options, s, i, j)
    case Capture(_, content) => content.Cons? && SpansAll(content, s, i, j)
    case Repeat(mode, min, max, content) => exists n: nat :: Iterates(mode, min, max, content, n, s, i, j)
    case _ => Covers(node, s, i, j)
  }

  ghost predicate SpansAll(nodes: Nodes, s: Subject, i: nat, j: nat) {
    match nodes
    case Nil => i == j <= |s|
    case Cons(head, tail) => exists m: nat :: Spans(head, s, i, m) && SpansAll(tail, s, m, j)
  }

  ghost predicate SpansSome(nodes: Nodes, s: Subject, i: nat, j: nat) {
    match nodes
    case Nil => false
    case Cons(head, tail) => Spans(head, s, i, j) || SpansSome(tail, s, i, j)
  }

  /** No repeat is possessive, except inside another repeat. */
  predicate Yielding(nodes: Nodes) {
    match nodes
    case Nil => true
    case Cons(head, tail) => YieldingNode(head) && Yielding(tail)
  }

  predicate YieldingNode(node: Node) {
    match node
    case Sequence(parts) => Yielding(parts)
    case Select(options) => Yielding(options)
    case Capture(_, content) => Yielding(content)
    case Repeat(mode, _, _, _) => !mode.Possessive?
    case _ => true
  }

  /** What a node spans it covers. */
  lemma {:induction false} SpansCovers(node: Node, s: Subject, i: nat, j: nat)
    requires Spans(node, s, i, j)
    ensures Covers(node, s, i, j)
  {
    match node
    case Sequence(parts) => SpansAllCovers(parts, s, i, j);
    case Select(options) => SpansSomeCovers(options, s, i, j);
    case Capture(_, content) => SpansAllCovers(content, s, i, j);
    case Repeat(mode, min, max, content) =>
      var n: nat :| Iterates(mode, min, max, content, n, s, i, j);
      assert min <= n && (max == 0 || n <= max) && CoversTimes(content, n, s, i, j);
    case _ =>
  }

  lemma {:induction false} SpansAllCovers(nodes: Nodes, s: Subject, i: nat, j: nat)
    requires SpansAll(nodes, s, i, j)
    ensures CoversAll(nodes, s, i, j)
  {
    if nodes.Cons? {
      var m: nat :| Spans(nodes.head, s, i, m) && SpansAll(nodes.tail, s, m, j);
      SpansCovers(nodes.head, s, i, m);
      SpansAllCovers(nodes.tail, s, m, j);
    }
  }

  lemma {:induction false} SpansSomeCovers(nodes: Nodes, s: Subject, i: nat, j: nat)
    requires SpansSome(nodes, s, i, j)
    ensures CoversSome(nodes, s, i, j)
  {
    if Spans(nodes.head, s, i, j) { SpansCovers(nodes.head, s, i, j); } else { SpansSomeCovers(nodes.tail, s, i, j); }
  }

  /** Without possessive repeats it spans what it covers. */
  lemma {:induction false} CoversSpans(node: Node, s: Subject, i: nat, j: nat)
    requires YieldingNode(node) && Covers(node, s, i, j)
    ensures Spans(node, s, i, j)
  {
    match node
    case Sequence(parts) => CoversSpansAll(parts, s, i, j);
    case Select(options) => CoversSpansSome(options, s, i, j);
    case Capture(_, content) => CoversSpansAll(content, s, i, j);
    case Repeat(mode, min, max, content) =>
      var n: nat :| min <= n && (max == 0 || n <= max) && CoversTimes(content, n, s, i, j);
      assert Iterates(mode, min, max, content, n, s, i, j);
    case _ =>
  }

  lemma {:induction false} CoversSpansAll(nodes: Nodes, s: Subject, i: nat, j: nat)
    requires Yielding(nodes) && CoversAll(nodes, s, i, j)
    ensures SpansAll(nodes, s, i, j)
  {
    if nodes.Cons? {
      var m: nat :| Covers(nodes.head, s, i, m) && CoversAll(nodes.tail, s, m, j);
      CoversSpans(nodes.head, s, i, m);
      CoversSpansAll(nodes.tail, s, m, j);
    }
  }

  lemma {:induction false} CoversSpansSome(nodes: Nodes, s: Subject, i: nat, j: nat)
    requires Yielding(nodes) && CoversSome(nodes, s, i, j)
    ensures SpansSome(nodes, s, i, j)
  {
    if Covers(nodes.head, s, i, j) { CoversSpans(nodes.head, s, i, j); } else { CoversSpansSome(nodes.tail, s, i, j); }
  }

  lemma SpansForward(node: Node, s: Subject, i: nat, j: nat)
    requires Spans(node, s, i, j)
    ensures i <= j <= |s|
  {
    SpansCovers(node, s, i, j);
    CoversForward(node, s, i, j);
  }

  lemma SpansAllForward(nodes: Nodes, s: Subject, i: nat, j: nat)
    requires SpansAll(nodes, s, i, j)
    ensures i <= j <= |s|
  {
    SpansAllCovers(nodes, s, i, j);
    AllForward(nodes, s, i, j);
  }

  lemma {:induction false} SpansAppend(front: Nodes, back: Nodes, s: Subject, i: nat, m: nat, j: nat)
    requires SpansAll(front, s, i, m) && SpansAll(back, s, m, j)
    ensures SpansAll(Append(front, back), s, i, j)
  {
    if front.Cons? {
      var a: nat :| Spans(front.head, s, i, a) && SpansAll(front.tail, s, a, m);
      SpansAppend(front.tail, back, s, a, m, j);
    }
  }

  lemma {:induction false} SpansAppendInverse(front: Nodes, back: Nodes, s: Subject, i: nat, j: nat) returns (m: nat)
    requires SpansAll(Append(front, back), s, i, j)
    ensures SpansAll(front, s, i, m) && SpansAll(back, s, m, j)
  {
    if front.Nil? {
      m := i;
      SpansAllForward(back, s, i, j);
    } else {
      var a: nat :| Spans(front.head, s, i, a) && SpansAll(Append(front.tail, back), s, a, j);
      m := SpansAppendInverse(front.tail, back, s, a, j);
    }
  }
}
