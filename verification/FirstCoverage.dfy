/** First sets over-approximate: whatever a stack consumes first is in its first set. */
module FirstCoverage {
  import opened RegexSyntax
  import opened RegexEvaluator
  import opened RegexLanguage
  import opened FirstSets

  /** The character sets of a pattern are ones that the source can put into a point set. */
  predicate ExpressibleNode(node: Node) {
    match node
    case One(item) => Expressible(item)
    case Sequence(parts) => ExpressibleNodes(parts)
    case Select(options) => ExpressibleNodes(options)
    case Capture(_, content) => ExpressibleNodes(content)
    case Repeat(_, _, _, content) => ExpressibleNodes(content)
    case _ => true
  }

  predicate ExpressibleNodes(nodes: Nodes) {
    match nodes
    case Nil => true
    case Cons(head, tail) => ExpressibleNode(head) && ExpressibleNodes(tail)
  }

  /** The marks at which `first` stops are where consumption stops. */
  predicate WellEnded(k: Nodes) {
    match k
    case Nil => true
    case Cons(head, tail) =>
      match head
      case EndMark => tail == Cons(Accept, Nil)
      case EndCycleMark => tail.Nil?
      case Accept => tail.Nil?
      case NumericMark(_) => WellEnded(tail)
      case StartMark => WellEnded(tail)
      case _ => Plain(head) && WellEnded(tail)
  }

  lemma {:induction false} AppendWellEnded(front: Nodes, back: Nodes)
    requires AllPlain(front) && WellEnded(back)
    ensures WellEnded(Append(front, back))
  {
    if front.Cons? { AppendWellEnded(front.tail, back); }
  }

  lemma {:induction false} AppendExpressible(front: Nodes, back: Nodes)
    requires ExpressibleNodes(front) && ExpressibleNodes(back)
    ensures ExpressibleNodes(Append(front, back))
  {
    if front.Cons? { AppendExpressible(front.tail, back); }
  }

  lemma AllowsConcat(a: seq<Lead>, b: seq<Lead>, c: Char)
    ensures Allows(a + b, c) <==> Allows(a, c) || Allows(b, c)
  {
  }

  lemma {:induction false} SpreadAllows(items: Items, c: Char)
    ensures Allows(Spread(items), c) <==> MatchSome(items, c)
  {
    if items.MoreItems? {
      SpreadAllows(items.rest, c);
      AllowsConcat([Of(items.first)], Spread(items.rest), c);
      assert Allows([Of(items.first)], c) <==> MatchItem(items.first, c) by {
        assert Of(items.first) in [Of(items.first)];
      }
    }
  }

  lemma OneAllows(item: Item, c: Char)
    ensures Allows(First([], Cons(One(item), Nil)), c) <==> MatchItem(item, c)
  {
    match item
    case CharSet(items) => SpreadAllows(items, c); assert [] + Spread(items) == Spread(items);
    case Enumeration(values) =>
      assert [] + Characters(values) == Characters(values);
      if c in values {
        var i :| 0 <= i < |values| && values[i] == c;
        assert InLead(Characters(values)[i], c);
      }
    case _ => assert [] + [Of(item)] == [Of(item)] && Of(item) in [Of(item)];
  }

  /** What the set allowed before, it still allows after. */
  lemma {:induction false} FirstKeeps(l: seq<Lead>, k: Nodes, c: Char)
    requires Allows(l, c)
    ensures Allows(First(l, k), c)
    decreases Sizes(k)
  {
    if k.Cons? {
      var Cons(head, tail) := k;
      match head
      case One(item) =>
        var added := if item.CharSet? then Spread(item.items)
                     else if item.Enumeration? then Characters(item.values) else [Of(item)];
        assert First(l, k) == l + added;
        AllowsConcat(l, added, c);
      case AnyChar => assert CanBeAnything in First(l, k) && InLead(CanBeAnything, c);
      case Text(chars) =>
        if |chars| > 0 { AllowsConcat(l, [Of(Character(chars[0]))], c); } else { FirstKeeps(l, tail, c); }
      case Sequence(parts) =>
        AppendSizes(parts, tail); assert Sizes(k) == 1 + 2 * Sizes(parts) + Sizes(tail);
        FirstKeeps(l, Append(parts, tail), c);
      case Select(options) =>
        if options.Cons? {
          SelectSizes(options, tail);
          FirstKeeps(l, Cons(options.head, tail), c);
          FirstKeeps(First(l, Cons(options.head, tail)), Cons(Select(options.tail), tail), c);
        }
      case Capture(_, content) =>
        AppendSizes(content, tail); assert Sizes(k) == 3 + 2 * Sizes(content) + Sizes(tail);
        FirstKeeps(l, Append(content, tail), c);
      case Repeat(mode, min, max, content) =>
        AppendSizes(content, tail); assert Sizes(k) == 3 + Sizes(content) + Sizes(tail);
        FirstKeeps(l, Append(content, tail), c);
        FirstKeeps(l, tail, c);
        FirstKeeps(First(l, Append(content, tail)), tail, c);
        FirstKeeps(First(l, tail), Append(content, tail), c);
      case AssertEnd =>
      case EndMark =>
      case EndCycleMark =>
      case Accept =>
      case _ => FirstKeeps(l, tail, c);
    }
  }

  function Added(item: Item): seq<Lead> {
    match item
    case CharSet(items) => Spread(items)
    case Enumeration(values) => Characters(values)
    case _ => [Of(item)]
  }

  lemma ItemCovered(l: seq<Lead>, item: Item, tail: Nodes, c: Char)
    requires MatchItem(item, c)
    ensures Allows(First(l, Cons(One(item), tail)), c)
  {
    OneAllows(item, c);
    assert First([], Cons(One(item), Nil)) == [] + Added(item) == Added(item);
    assert First(l, Cons(One(item), tail)) == l + Added(item);
    AllowsConcat(l, Added(item), c);
  }

  /** The character with which the front of a stack starts to consume is in the first set of the stack. */
  lemma {:induction false} FirstCovers(l: seq<Lead>, front: Nodes, back: Nodes, s: Subject, i: nat, j: nat)
    requires WellEnded(front) && CoversAll(front, s, i, j) && i < j <= |s|
    ensures Allows(First(l, Append(front, back)), s[i])
    decreases Sizes(front), 1
  {
    var Cons(head, tail) := front;
    var c := s[i];
    var m: nat :| Covers(head, s, i, m) && CoversAll(tail, s, m, j);
    match head
    case One(item) => ItemCovered(l, item, Append(tail, back), c);
    case AnyChar => assert CanBeAnything in First(l, Append(front, back)) && InLead(CanBeAnything, c);
    case Text(chars) =>
      if |chars| > 0 {
        assert s[i + 0] == chars[0];
        var lead := Of(Character(chars[0]));
        assert lead in [lead] && InLead(lead, c);
        AllowsConcat(l, [lead], c);
      } else {
        FirstCovers(l, tail, back, s, i, j);
      }
    case Sequence(parts) =>
      assert Sizes(front) == 1 + 2 * Sizes(parts) + Sizes(tail);
      FirstCoversSpliced(l, parts, tail, back, s, i, m, j);
    case Select(options) => FirstCoversSelect(l, options, tail, back, s, i, m, j);
    case Capture(_, content) =>
      assert Sizes(front) == 3 + 2 * Sizes(content) + Sizes(tail);
      FirstCoversSpliced(l, content, tail, back, s, i, m, j);
    case Repeat(mode, min, max, content) =>
      assert Sizes(front) == 3 + Sizes(content) + Sizes(tail);
      FirstCoversRepeat(l, mode, min, max, content, tail, back, s, i, m, j);
    case AssertEnd => AllForward(tail, s, m, j);
    case EndMark => AcceptConsumesNothing(s, m, j);
    case Reject => assert false;
    case EndCycleMark => assert false;
    case Accept => assert false;
    case _ => FirstCovers(l, tail, back, s, i, j);
  }

  lemma {:induction false} FirstCoversSpliced(l: seq<Lead>, content: Nodes, tail: Nodes, back: Nodes,
                                              s: Subject, i: nat, m: nat, j: nat)
    requires AllPlain(content) && WellEnded(tail) && i < j <= |s|
    requires CoversAll(content, s, i, m) && CoversAll(tail, s, m, j)
    ensures Allows(First(l, Append(content, Append(tail, back))), s[i])
    decreases Sizes(content) + Sizes(tail), 2
  {
    AppendSizes(content, tail);
    AppendWellEnded(content, tail);
    AppendAssociative(content, tail, back);
    CoversAppend(content, tail, s, i, m, j);
    FirstCovers(l, Append(content, tail), back, s, i, j);
  }

  lemma {:induction false} FirstCoversSelect(l: seq<Lead>, options: Nodes, tail: Nodes, back: Nodes,
                                             s: Subject, i: nat, m: nat, j: nat)
    requires AllPlain(options) && WellEnded(tail) && i < j <= |s|
    requires CoversSome(options, s, i, m) && CoversAll(tail, s, m, j)
    ensures Allows(First(l, Cons(Select(options), Append(tail, back))), s[i])
    decreases 1 + Sizes(options) + Sizes(tail), 0
  {
    assert Sizes(options) == Size(options.head) + Sizes(options.tail);
    var first, rest := Cons(options.head, Append(tail, back)), Cons(Select(options.tail), Append(tail, back));
    if Covers(options.head, s, i, m) {
      assert CoversAll(Cons(options.head, tail), s, i, j);
      FirstCovers(l, Cons(options.head, tail), back, s, i, j);
      FirstKeeps(First(l, first), rest, s[i]);
    } else {
      FirstCoversSelect(First(l, first), options.tail, tail, back, s, i, m, j);
    }
  }

  lemma AcceptConsumesNothing(s: Subject, i: nat, j: nat)
    requires CoversAll(Cons(Accept, Nil), s, i, j)
    ensures i == j
  {
  }

  lemma {:induction false} FirstCoversRepeat(l: seq<Lead>, mode: Mode, min: nat, max: nat, content: Nodes, tail: Nodes,
                                             back: Nodes, s: Subject, i: nat, m: nat, j: nat)
    requires AllPlain(content) && WellEnded(tail) && i < j <= |s|
    requires Covers(Repeat(mode, min, max, content), s, i, m) && CoversAll(tail, s, m, j)
    ensures Allows(First(l, Cons(Repeat(mode, min, max, content), Append(tail, back))), s[i])
    decreases 3 + Sizes(content) + Sizes(tail), 0
  {
    var after := Append(tail, back);
    var all := Append(content, after);
    var n: nat :| min <= n && (max == 0 || n <= max) && CoversTimes(content, n, s, i, m);
    AppendWellEnded(content, Nil);
    AppendNil(content);
    if e: nat :| i < e && CoversAll(content, s, i, e) {
      AllForward(content, s, i, e);
      FirstCovers(l, content, after, s, i, e);
      FirstCovers(First(l, after), content, after, s, i, e);
      FirstKeeps(First(l, all), after, s[i]);
    } else {
      NothingConsumed(content, n, s, i, m);
      FirstCovers(l, tail, back, s, i, j);
      FirstKeeps(First(l, after), all, s[i]);
      FirstCovers(First(l, all), tail, back, s, i, j);
      if n > 0 { FirstCoversSpliced(l, content, tail, back, s, i, i, j); }
    }
  }

  lemma {:induction false} NothingConsumed(content: Nodes, n: nat, s: Subject, i: nat, m: nat)
    requires CoversTimes(content, n, s, i, m)
    requires !exists e: nat :: i < e && CoversAll(content, s, i, e)
    ensures m == i && (n > 0 ==> CoversAll(content, s, i, i))
    decreases n
  {
    if n > 0 {
      var e: nat :| CoversAll(content, s, i, e) && CoversTimes(content, n - 1, s, e, m);
      AllForward(content, s, i, e);
      NothingConsumed(content, n - 1, s, i, m);
    }
  }
}
