/** What a pattern denotes: the spans of a subject that it can cover.  This is stated without the evaluator: no order
    of attempts, no continuation, no flags, and the mode of a repeat is ignored. */
module RegexLanguage {
  import opened RegexSyntax
  import opened RegexEvaluator

  ghost predicate Covers(node: Node, s: Subject, i: nat, j: nat)
    decreases node, 0
  {
    match node
    case One(item) => j == i + 1 <= |s| && MatchItem(item, s[i])
    case AnyChar => j == i + 1 <= |s|
    case Text(chars) => j == i + |chars| <= |s| && TextAt(s, i, chars)
    case Sequence(parts) => parts.Cons? && CoversAll(parts, s, i, j)
    case Select(options) => CoversSome(options, s, i, j)
    case Capture(_, content) => content.Cons? && CoversAll(content, s, i, j)
    case Repeat(_, min, max, content) =>
      exists n: nat :: min <= n && (max == 0 || n <= max) && CoversTimes(content, n, s, i, j)
    case AssertBegin => i == j == 0
    case AssertEnd => i == j == |s|
    case Reject => false
    case _ => i == j <= |s|
  }

  /** One after the other. */
  ghost predicate CoversAll(nodes: Nodes, s: Subject, i: nat, j: nat)
    decreases nodes, 0
  {
    match nodes
    case Nil => i == j <= |s|
    case Cons(head, tail) => exists m: nat :: Covers(head, s, i, m) && CoversAll(tail, s, m, j)
  }

  /** One of them. */
  ghost predicate CoversSome(nodes: Nodes, s: Subject, i: nat, j: nat)
    decreases nodes, 0
  {
    match nodes
    case Nil => false
    case Cons(head, tail) => Covers(head, s, i, j) || CoversSome(tail, s, i, j)
  }

  /** `n` times in a row. */
  ghost predicate CoversTimes(nodes: Nodes, n: nat, s: Subject, i: nat, j: nat)
    decreases nodes, 1, n
  {
    if n == 0 then i == j <= |s|
    else exists m: nat :: CoversAll(nodes, s, i, m) && CoversTimes(nodes, n - 1, s, m, j)
  }

  lemma CoversForward(node: Node, s: Subject, i: nat, j: nat)
    requires Covers(node, s, i, j)
    ensures i <= j <= |s|
    decreases node, 0
  {
    match node
    case Sequence(parts) => AllForward(parts, s, i, j);
    case Select(options) => SomeForward(options, s, i, j);
    case Capture(_, content) => AllForward(content, s, i, j);
    case Repeat(_, min, max, content) =>
      var n: nat :| min <= n && (max == 0 || n <= max) && CoversTimes(content, n, s, i, j);
      TimesForward(content, n, s, i, j);
    case _ =>
  }

  lemma AllForward(nodes: Nodes, s: Subject, i: nat, j: nat)
    requires CoversAll(nodes, s, i, j)
    ensures i <= j <= |s|
    decreases nodes, 0
  {
    if nodes.Cons? {
      var m: nat :| Covers(nodes.head, s, i, m) && CoversAll(nodes.tail, s, m, j);
      CoversForward(nodes.head, s, i, m);
      AllForward(nodes.tail, s, m, j);
    }
  }

  lemma SomeForward(nodes: Nodes, s: Subject, i: nat, j: nat)
    requires CoversSome(nodes, s, i, j)
    ensures i <= j <= |s|
    decreases nodes, 0
  {
    if Covers(nodes.head, s, i, j) { CoversForward(nodes.head, s, i, j); } else { SomeForward(nodes.tail, s, i, j); }
  }

  lemma TimesForward(nodes: Nodes, n: nat, s: Subject, i: nat, j: nat)
    requires CoversTimes(nodes, n, s, i, j)
    ensures i <= j <= |s|
    decreases nodes, 1, n
  {
    if n > 0 {
      var m: nat :| CoversAll(nodes, s, i, m) && CoversTimes(nodes, n - 1, s, m, j);
      AllForward(nodes, s, i, m);
      TimesForward(nodes, n - 1, s, m, j);
    }
  }

  lemma HeadCovers(head: Node, tail: Nodes, s: Subject, i: nat, j: nat) returns (m: nat)
    requires CoversAll(Cons(head, tail), s, i, j)
    ensures Covers(head, s, i, m) && CoversAll(tail, s, m, j)
  {
    m :| Covers(head, s, i, m) && CoversAll(tail, s, m, j);
  }

  lemma CoversAppend(front: Nodes, back: Nodes, s: Subject, i: nat, m: nat, j: nat)
    requires CoversAll(front, s, i, m) && CoversAll(back, s, m, j)
    ensures CoversAll(Append(front, back), s, i, j)
  {
    if front.Cons? {
      var a: nat :| Covers(front.head, s, i, a) && CoversAll(front.tail, s, a, m);
      CoversAppend(front.tail, back, s, a, m, j);
    }
  }

  lemma CoversAppendInverse(front: Nodes, back: Nodes, s: Subject, i: nat, j: nat) returns (m: nat)
    requires CoversAll(Append(front, back), s, i, j)
    ensures CoversAll(front, s, i, m) && CoversAll(back, s, m, j)
  {
    if front.Nil? {
      m := i;
      AllForward(back, s, i, j);
    } else {
      var a: nat :| Covers(front.head, s, i, a) && CoversAll(Append(front.tail, back), s, a, j);
      m := CoversAppendInverse(front.tail, back, s, a, j);
    }
  }

  lemma CoversTimesAdd(nodes: Nodes, a: nat, b: nat, s: Subject, i: nat, m: nat, j: nat)
    requires CoversTimes(nodes, a, s, i, m) && CoversTimes(nodes, b, s, m, j)
    ensures CoversTimes(nodes, a + b, s, i, j)
    decreases a
  {
    if a > 0 {
      var x: nat :| CoversAll(nodes, s, i, x) && CoversTimes(nodes, a - 1, s, x, m);
      CoversTimesAdd(nodes, a - 1, b, s, x, m, j);
    }
  }

  lemma CoversTimesSplit(nodes: Nodes, a: nat, b: nat, s: Subject, i: nat, j: nat) returns (m: nat)
    requires CoversTimes(nodes, a + b, s, i, j)
    ensures CoversTimes(nodes, a, s, i, m) && CoversTimes(nodes, b, s, m, j)
    decreases a
  {
    if a == 0 {
      TimesForward(nodes, b, s, i, j);
      m := i;
    } else {
      var x: nat :| CoversAll(nodes, s, i, x) && CoversTimes(nodes, a + b - 1, s, x, j);
      m := CoversTimesSplit(nodes, a - 1, b, s, x, j);
    }
  }

  // ----- what can be empty -----

  /** Can the node cover nothing? */
  predicate NullableNode(node: Node) {
    match node
    case One(_) => false
    case AnyChar => false
    case Text(chars) => |chars| == 0
    case Sequence(parts) => parts.Cons? && Nullable(parts)
    case Select(options) => SomeNullable(options)
    case Capture(_, content) => content.Cons? && Nullable(content)
    case Repeat(_, min, max, content) => if min == 0 then true else (max == 0 || min <= max) && Nullable(content)
    case Reject => false
    case _ => true
  }

  predicate Nullable(nodes: Nodes) {
    match nodes
    case Nil => true
    case Cons(head, tail) => NullableNode(head) && Nullable(tail)
  }

  predicate SomeNullable(nodes: Nodes) {
    match nodes
    case Nil => false
    case Cons(head, tail) => NullableNode(head) || SomeNullable(tail)
  }

  lemma {:induction false} EmptyIsNullable(nodes: Nodes, s: Subject, i: nat)
    requires CoversAll(nodes, s, i, i)
    ensures Nullable(nodes)
  {
    if nodes.Cons? {
      var m: nat :| Covers(nodes.head, s, i, m) && CoversAll(nodes.tail, s, m, i);
      CoversForward(nodes.head, s, i, m);
      AllForward(nodes.tail, s, m, i);
      EmptyNodeIsNullable(nodes.head, s, i);
      EmptyIsNullable(nodes.tail, s, i);
    }
  }

  lemma {:induction false} EmptyNodeIsNullable(node: Node, s: Subject, i: nat)
    requires Covers(node, s, i, i)
    ensures NullableNode(node)
  {
    match node
    case Sequence(parts) => EmptyIsNullable(parts, s, i);
    case Select(options) => EmptyIsSomeNullable(options, s, i);
    case Capture(_, content) => EmptyIsNullable(content, s, i);
    case Repeat(_, min, max, content) =>
      var n: nat :| min <= n && (max == 0 || n <= max) && CoversTimes(content, n, s, i, i);
      if min > 0 {
        EmptyTimes(content, n, s, i);
        EmptyIsNullable(content, s, i);
      }
    case _ =>
  }

  lemma EmptyTimes(nodes: Nodes, n: nat, s: Subject, i: nat)
    requires n > 0 && CoversTimes(nodes, n, s, i, i)
    ensures CoversAll(nodes, s, i, i)
  {
    var m: nat :| CoversAll(nodes, s, i, m) && CoversTimes(nodes, n - 1, s, m, i);
    AllForward(nodes, s, i, m);
    TimesForward(nodes, n - 1, s, m, i);
  }

  lemma {:induction false} EmptyIsSomeNullable(nodes: Nodes, s: Subject, i: nat)
    requires CoversSome(nodes, s, i, i)
    ensures SomeNullable(nodes)
  {
    if Covers(nodes.head, s, i, i) { EmptyNodeIsNullable(nodes.head, s, i); } else { EmptyIsSomeNullable(nodes.tail, s, i); }
  }

  /** What is nullable covers all of the empty subject, so nothing smaller will do. */
  lemma {:induction false} NullableIsEmpty(nodes: Nodes)
    requires Nullable(nodes)
    ensures CoversAll(nodes, [], 0, 0)
  {
    if nodes.Cons? {
      NullableNodeIsEmpty(nodes.head);
      NullableIsEmpty(nodes.tail);
    }
  }

  /** That is what "can be empty" means: on some subject, at some place, it covers nothing. */
  lemma NullableMeans(nodes: Nodes)
    ensures Nullable(nodes) <==> exists s: Subject, i: nat :: CoversAll(nodes, s, i, i)
  {
    if Nullable(nodes) {
      var s: Subject, i: nat := [], 0;
      NullableIsEmpty(nodes);
      assert CoversAll(nodes, s, i, i);
    }
    forall s: Subject, i: nat | CoversAll(nodes, s, i, i)
      ensures Nullable(nodes)
    {
      EmptyIsNullable(nodes, s, i);
    }
  }

  lemma {:induction false} NullableNodeIsEmpty(node: Node)
    requires NullableNode(node)
    ensures Covers(node, [], 0, 0)
  {
    match node
    case Sequence(parts) => NullableIsEmpty(parts);
    case Select(options) => SomeNullableIsEmpty(options);
    case Capture(_, content) => NullableIsEmpty(content);
    case Repeat(_, min, max, content) =>
      if min > 0 { NullableIsEmpty(content); }
      NullableTimes(content, min);
    case _ =>
  }

  lemma {:induction false} NullableTimes(nodes: Nodes, n: nat)
    requires n > 0 ==> CoversAll(nodes, [], 0, 0)
    ensures CoversTimes(nodes, n, [], 0, 0)
  {
    if n > 0 { NullableTimes(nodes, n - 1); }
  }

  lemma {:induction false} SomeNullableIsEmpty(nodes: Nodes)
    requires SomeNullable(nodes)
    ensures CoversSome(nodes, [], 0, 0)
  {
    if NullableNode(nodes.head) { NullableNodeIsEmpty(nodes.head); } else { SomeNullableIsEmpty(nodes.tail); }
  }

  // ----- captures -----

  /** Is the span covered by the content of some group of this number? */
  ghost predicate GroupCovers(node: Node, id: nat, s: Subject, span: Span) {
    match node
    case Sequence(parts) => SomeGroupCovers(parts, id, s, span)
    case Select(options) => SomeGroupCovers(options, id, s, span)
    case Repeat(_, _, _, content) => SomeGroupCovers(content, id, s, span)
    case Capture(c, content) =>
      || (c == id && 0 <= span.begin <= span.end && CoversAll(content, s, span.begin, span.end))
      || SomeGroupCovers(content, id, s, span)
    case _ => false
  }

  ghost predicate SomeGroupCovers(nodes: Nodes, id: nat, s: Subject, span: Span) {
    match nodes
    case Nil => false
    case Cons(head, tail) => GroupCovers(head, id, s, span) || SomeGroupCovers(tail, id, s, span)
  }

  predicate HasGroup(nodes: Nodes, id: nat) {
    match nodes
    case Nil => false
    case Cons(head, tail) =>
      || HasGroup(tail, id)
      || match head {
           case Sequence(parts) => HasGroup(parts, id)
           case Select(options) => HasGroup(options, id)
           case Repeat(_, _, _, content) => HasGroup(content, id)
           case Capture(c, content) => c == id || HasGroup(content, id)
           case _ => false
         }
  }

  /** No group contains a group of its own number, which is how the grammar numbers them. */
  predicate WellNumberedNode(node: Node) {
    match node
    case Sequence(parts) => WellNumbered(parts)
    case Select(options) => WellNumbered(options)
    case Repeat(_, _, _, content) => WellNumbered(content)
    case Capture(c, content) => !HasGroup(content, c) && WellNumbered(content)
    case _ => true
  }

  predicate WellNumbered(nodes: Nodes) {
    match nodes
    case Nil => true
    case Cons(head, tail) => WellNumberedNode(head) && WellNumbered(tail)
  }

  lemma NoGroupNoCover(nodes: Nodes, id: nat, s: Subject, span: Span)
    requires !HasGroup(nodes, id)
    ensures !SomeGroupCovers(nodes, id, s, span)
  {
    match nodes
    case Nil =>
    case Cons(head, tail) =>
      NoGroupNoCover(tail, id, s, span);
      match head {
        case Sequence(parts) => NoGroupNoCover(parts, id, s, span);
        case Select(options) => NoGroupNoCover(options, id, s, span);
        case Repeat(_, _, _, content) => NoGroupNoCover(content, id, s, span);
        case Capture(c, content) => NoGroupNoCover(content, id, s, span);
        case _ =>
      }
  }

  /** Does every match of the node close a group of this number?  A choice does if all its options do, a repeat if it has a
      compulsory iteration. */
  predicate Passes(node: Node, id: nat) {
    match node
    case Sequence(parts) => SomePasses(parts, id)
    case Select(options) => options.Cons? && EachPasses(options, id)
    case Repeat(_, min, _, content) => min > 0 && SomePasses(content, id)
    case Capture(c, content) => c == id || SomePasses(content, id)
    case _ => false
  }

  predicate SomePasses(nodes: Nodes, id: nat) {
    match nodes
    case Nil => false
    case Cons(head, tail) => Passes(head, id) || SomePasses(tail, id)
  }

  predicate EachPasses(nodes: Nodes, id: nat) {
    match nodes
    case Nil => true
    case Cons(head, tail) => Passes(head, id) && EachPasses(tail, id)
  }

  /** Between two results, a group either kept its span or got one that its content covers. */
  ghost predicate Kept(nodes: Nodes, s: Subject, before: Results, after: Results) {
    && after.begin == before.begin
    && forall id: nat :: after.Group(id) == before.Group(id) || (after.Group(id).matched && SomeGroupCovers(nodes, id, s, after.Group(id)))
  }

  /** And those that had to be passed are matched. */
  ghost predicate Recorded(nodes: Nodes, s: Subject, before: Results, after: Results) {
    Kept(nodes, s, before, after) && forall id: nat | SomePasses(nodes, id) :: after.Group(id).matched
  }

  ghost predicate RecordedIn(node: Node, s: Subject, before: Results, after: Results) {
    && after.begin == before.begin
    && (forall id: nat :: after.Group(id) == before.Group(id) || (after.Group(id).matched && GroupCovers(node, id, s, after.Group(id))))
    && forall id: nat | Passes(node, id) :: after.Group(id).matched
  }

  /** The same for one of several nodes. */
  ghost predicate RecordedSome(nodes: Nodes, s: Subject, before: Results, after: Results) {
    Kept(nodes, s, before, after) && forall id: nat | nodes.Cons? && EachPasses(nodes, id) :: after.Group(id).matched
  }

  /** And for `n` iterations. */
  ghost predicate RecordedTimes(nodes: Nodes, n: nat, s: Subject, before: Results, after: Results) {
    Kept(nodes, s, before, after) && (n > 0 ==> Recorded(nodes, s, before, after))
  }
}
