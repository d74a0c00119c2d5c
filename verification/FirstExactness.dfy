/** First sets and the collision test are exact for patterns of plain character classes: two of them collide exactly if
    some character can begin a text of both. */
module FirstExactness {
  import opened Bytes
  import opened RegexSyntax
  import opened RegexEvaluator
  import opened RegexLanguage
  import opened FirstSets
  import opened FirstCoverage

  // ----- patterns whose every part can be matched anywhere -----

  predicate IsChar(c: Code) {
    -0x8000_0000 <= c <= 0xffff_ffff
  }

  /** No negative set, no range from high to low, nothing empty. */
  predicate Proper(item: Item) {
    match item
    case Character(v) => IsChar(v)
    case CharRange(low, high) => low <= high && IsChar(low) && IsChar(high)
    case Enumeration(values) => values != [] && forall v | v in values :: IsChar(v)
    case CharSet(items) => items.MoreItems? && AllProper(items)
    case NegativeSet(_) => false
  }

  predicate AllProper(items: Items) {
    match items
    case NoItem => true
    case MoreItems(item, rest) => Proper(item) && AllProper(rest)
  }

  /** No assertion, and nothing that matches nowhere. */
  predicate Easy(node: Node) {
    match node
    case One(item) => Proper(item)
    case AnyChar => true
    case Text(chars) => forall c | c in chars :: IsChar(c)
    case Empty => true
    case Sequence(parts) => parts.Cons? && AllEasy(parts)
    case Select(options) => options.Cons? && AllEasy(options)
    case Capture(_, content) => content.Cons? && AllEasy(content)
    case Repeat(_, min, max, content) => (max == 0 || min <= max) && AllEasy(content)
    case _ => false
  }

  predicate AllEasy(nodes: Nodes) {
    match nodes
    case Nil => true
    case Cons(head, tail) => Easy(head) && AllEasy(tail)
  }

  lemma {:induction false} AppendEasy(front: Nodes, back: Nodes)
    requires AllEasy(front) && AllEasy(back)
    ensures AllEasy(Append(front, back))
  {
    if front.Cons? { AppendEasy(front.tail, back); }
  }

  // ----- what is covered does not depend on the place -----

  predicate SameText(s: Subject, i: nat, j: nat, t: Subject, a: nat) {
    i <= j <= |s| && a + (j - i) <= |t| && s[i..j] == t[a..a + (j - i)]
  }

  lemma SameTextParts(s: Subject, i: nat, m: nat, j: nat, t: Subject, a: nat)
    requires SameText(s, i, j, t, a) && i <= m <= j
    ensures SameText(s, i, m, t, a) && SameText(s, m, j, t, a + (m - i))
  {
    var n, end := m - i, a + (j - i);
    SliceOfSlice(s, i, j, 0, n);
    SliceOfSlice(t, a, end, 0, n);
    SliceOfSlice(s, i, j, n, j - i);
    SliceOfSlice(t, a, end, n, j - i);
  }

  lemma SameCharacter(s: Subject, i: nat, j: nat, t: Subject, a: nat, k: nat)
    requires SameText(s, i, j, t, a) && k < j - i
    ensures s[i + k] == t[a + k]
  {
    var u, v := s[i..j], t[a..a + (j - i)];
    assert u == v && u[k] == s[i + k] && v[k] == t[a + k];
  }

  lemma {:induction false} Moves(node: Node, s: Subject, i: nat, j: nat, t: Subject, a: nat)
    requires Easy(node) && Covers(node, s, i, j) && SameText(s, i, j, t, a)
    ensures Covers(node, t, a, a + (j - i))
    decreases node, 0
  {
    match node
    case One(_) => SameCharacter(s, i, j, t, a, 0);
    case Text(chars) =>
      forall k | 0 <= k < |chars|
        ensures t[a + k] == chars[k]
      {
        SameCharacter(s, i, j, t, a, k);
      }
    case Sequence(parts) => AllMove(parts, s, i, j, t, a);
    case Select(options) => SomeMove(options, s, i, j, t, a);
    case Capture(_, content) => AllMove(content, s, i, j, t, a);
    case Repeat(_, min, max, content) =>
      var n: nat :| min <= n && (max == 0 || n <= max) && CoversTimes(content, n, s, i, j);
      TimesMove(content, n, s, i, j, t, a);
    case _ =>
  }

  lemma {:induction false} AllMove(nodes: Nodes, s: Subject, i: nat, j: nat, t: Subject, a: nat)
    requires AllEasy(nodes) && CoversAll(nodes, s, i, j) && SameText(s, i, j, t, a)
    ensures CoversAll(nodes, t, a, a + (j - i))
    decreases nodes, 0
  {
    if nodes.Cons? {
      var m := HeadCovers(nodes.head, nodes.tail, s, i, j);
      CoversForward(nodes.head, s, i, m);
      AllForward(nodes.tail, s, m, j);
      SameTextParts(s, i, m, j, t, a);
      Moves(nodes.head, s, i, m, t, a);
      AllMove(nodes.tail, s, m, j, t, a + (m - i));
    }
  }

  lemma {:induction false} SomeMove(nodes: Nodes, s: Subject, i: nat, j: nat, t: Subject, a: nat)
    requires AllEasy(nodes) && CoversSome(nodes, s, i, j) && SameText(s, i, j, t, a)
    ensures CoversSome(nodes, t, a, a + (j - i))
    decreases nodes, 0
  {
    if Covers(nodes.head, s, i, j) { Moves(nodes.head, s, i, j, t, a); } else { SomeMove(nodes.tail, s, i, j, t, a); }
  }

  lemma {:induction false} TimesMove(nodes: Nodes, n: nat, s: Subject, i: nat, j: nat, t: Subject, a: nat)
    requires AllEasy(nodes) && CoversTimes(nodes, n, s, i, j) && SameText(s, i, j, t, a)
    ensures CoversTimes(nodes, n, t, a, a + (j - i))
    decreases nodes, 1, n
  {
    if n > 0 {
      var m: nat :| CoversAll(nodes, s, i, m) && CoversTimes(nodes, n - 1, s, m, j);
      AllForward(nodes, s, i, m);
      TimesForward(nodes, n - 1, s, m, j);
      SameTextParts(s, i, m, j, t, a);
      AllMove(nodes, s, i, m, t, a);
      TimesMove(nodes, n - 1, s, m, j, t, a + (m - i));
    }
  }

  // ----- texts -----

  /** The nodes cover all of the text. */
  ghost predicate Spells(nodes: Nodes, w: Subject) {
    CoversAll(nodes, w, 0, |w|)
  }

  lemma SpellsCons(head: Node, tail: Nodes, v: Subject, w: Subject)
    requires Easy(head) && AllEasy(tail) && Covers(head, v, 0, |v|) && Spells(tail, w)
    ensures Spells(Cons(head, tail), v + w)
  {
    Moves(head, v, 0, |v|, v + w, 0);
    AllMove(tail, w, 0, |w|, v + w, |v|);
  }

  lemma {:induction false} SpellsTimes(nodes: Nodes, n: nat, v: Subject, w: Subject)
    requires AllEasy(nodes) && Spells(nodes, v) && CoversTimes(nodes, n, w, 0, |w|)
    ensures CoversTimes(nodes, n + 1, v + w, 0, |v + w|)
  {
    AllMove(nodes, v, 0, |v|, v + w, 0);
    TimesMove(nodes, n, w, 0, |w|, v + w, |v|);
  }

  function Member(item: Item): (c: Char)
    requires Proper(item)
    ensures MatchItem(item, c)
  {
    match item
    case Character(v) => v
    case CharRange(low, _) => low
    case Enumeration(values) => assert values[0] in values; values[0]
    case CharSet(items) => assert AllProper(items) && Proper(items.first); Member(items.first)
  }

  /** The characters of a text in a pattern, as part of a subject. */
  function AsSubject(chars: seq<Code>): (w: Subject)
    requires forall c | c in chars :: IsChar(c)
    ensures |w| == |chars| && forall i | 0 <= i < |w| :: w[i] == chars[i]
  {
    if chars == [] then []
    else assert chars[0] in chars && IsChar(chars[0]); var c: Char := chars[0]; [c] + AsSubject(chars[1..])
  }

  /** Such a pattern has a text. */
  lemma {:induction false} SomeText(nodes: Nodes) returns (w: Subject)
    requires AllEasy(nodes)
    ensures Spells(nodes, w)
    decreases nodes, 0
  {
    w := [];
    if nodes.Cons? {
      var v := SomeNodeText(nodes.head);
      w := SomeText(nodes.tail);
      SpellsCons(nodes.head, nodes.tail, v, w);
      w := v + w;
    }
  }

  lemma {:induction false} SomeNodeText(node: Node) returns (w: Subject)
    requires Easy(node)
    ensures Covers(node, w, 0, |w|)
    decreases node, 0
  {
    match node
    case One(item) => w := [Member(item)];
    case AnyChar => w := [0];
    case Text(chars) => w := AsSubject(chars);
    case Empty => w := [];
    case Sequence(parts) => w := SomeText(parts);
    case Select(options) => w := SomeNodeText(options.head);
    case Capture(_, content) => w := SomeText(content);
    case Repeat(_, min, max, content) => w := SomeTimes(content, min);
  }

  lemma {:induction false} SomeTimes(nodes: Nodes, n: nat) returns (w: Subject)
    requires AllEasy(nodes)
    ensures CoversTimes(nodes, n, w, 0, |w|)
    decreases nodes, 1, n
  {
    w := [];
    if n > 0 {
      var v := SomeText(nodes);
      w := SomeTimes(nodes, n - 1);
      SpellsTimes(nodes, n - 1, v, w);
      w := v + w;
    }
  }

  // ----- first sets -----

  /** Some text of the nodes begins with the character. */
  ghost predicate Begins(nodes: Nodes, c: Char) {
    exists w: Subject :: w != [] && w[0] == c && Spells(nodes, w)
  }

  lemma BeginsBehind(head: Node, tail: Nodes, v: Subject)
    requires Easy(head) && AllEasy(tail) && v != [] && Covers(head, v, 0, |v|)
    ensures Begins(Cons(head, tail), v[0])
  {
    var w := SomeText(tail);
    SpellsCons(head, tail, v, w);
    assert (v + w)[0] == v[0];
  }

  /** What starts a list of parts and the rest starts the node that stands for the parts, if that covers what they do. */
  lemma BeginsSpliced(node: Node, parts: Nodes, tail: Nodes, c: Char)
    requires Begins(Append(parts, tail), c)
    requires forall s: Subject, i: nat, j: nat | CoversAll(parts, s, i, j) :: Covers(node, s, i, j)
    ensures Begins(Cons(node, tail), c)
  {
    var w: Subject :| w != [] && w[0] == c && Spells(Append(parts, tail), w);
    var m := CoversAppendInverse(parts, tail, w, 0, |w|);
    assert Covers(node, w, 0, m);
  }

  lemma {:induction false} RepeatBegins(mode: Mode, min: nat, max: nat, content: Nodes, tail: Nodes, c: Char)
    requires Easy(Repeat(mode, min, max, content)) && AllEasy(tail) && Begins(Append(content, tail), c)
    ensures Begins(Cons(Repeat(mode, min, max, content), tail), c)
  {
    var node := Repeat(mode, min, max, content);
    var w: Subject :| w != [] && w[0] == c && Spells(Append(content, tail), w);
    var m := CoversAppendInverse(content, tail, w, 0, |w|);
    AllForward(content, w, 0, m);
    AllForward(tail, w, m, |w|);
    if m == 0 {
      EmptyTimesAgain(content, min, w);
      assert Covers(node, w, 0, 0);
    } else {
      var v := w[..m];
      AllMove(content, w, 0, m, v, 0);
      var more := SomeTimes(content, if min == 0 then 0 else min - 1);
      SpellsTimes(content, if min == 0 then 0 else min - 1, v, more);
      assert Covers(node, v + more, 0, |v + more|);
      BeginsBehind(node, tail, v + more);
    }
  }

  lemma {:induction false} EmptyTimesAgain(nodes: Nodes, n: nat, s: Subject)
    requires CoversAll(nodes, s, 0, 0)
    ensures CoversTimes(nodes, n, s, 0, 0)
  {
    if n > 0 { EmptyTimesAgain(nodes, n - 1, s); }
  }

  lemma NoIteration(mode: Mode, max: nat, content: Nodes, tail: Nodes, c: Char)
    requires Begins(tail, c)
    ensures Begins(Cons(Repeat(mode, 0, max, content), tail), c)
  {
    var w: Subject :| w != [] && w[0] == c && Spells(tail, w);
    assert CoversTimes(content, 0, w, 0, 0) && Covers(Repeat(mode, 0, max, content), w, 0, 0);
  }

  /** A character is in the first set only if it was there before or begins a text. */
  lemma {:induction false} FirstIsTight(l: seq<Lead>, k: Nodes, c: Char)
    requires AllEasy(k) && Allows(First(l, k), c)
    ensures Allows(l, c) || Begins(k, c)
    decreases Sizes(k), 1
  {
    if k.Cons? {
      var Cons(head, tail) := k;
      match head
      case One(item) =>
        assert First(l, k) == l + Added(item);
        AllowsConcat(l, Added(item), c);
        OneAllows(item, c);
        assert First([], Cons(One(item), Nil)) == [] + Added(item) == Added(item);
        if MatchItem(item, c) { BeginsBehind(head, tail, [c]); }
      case AnyChar => BeginsBehind(head, tail, [c]);
      case Text(chars) =>
        if |chars| > 0 {
          var lead := Of(Character(chars[0]));
          AllowsConcat(l, [lead], c);
          if c == chars[0] { BeginsBehind(head, tail, AsSubject(chars)); }
        } else {
          FirstIsTight(l, tail, c);
          if Begins(tail, c) { BeginsSpliced(head, Nil, tail, c); }
        }
      case Empty =>
        FirstIsTight(l, tail, c);
        if Begins(tail, c) { BeginsSpliced(head, Nil, tail, c); }
      case Sequence(parts) =>
        assert Sizes(k) == 1 + 2 * Sizes(parts) + Sizes(tail);
        SplicedIsTight(l, head, parts, tail, c);
      case Select(options) => SelectIsTight(l, options, tail, c);
      case Capture(_, content) =>
        assert Sizes(k) == 3 + 2 * Sizes(content) + Sizes(tail);
        SplicedIsTight(l, head, content, tail, c);
      case Repeat(mode, min, max, content) => RepeatIsTight(l, mode, min, max, content, tail, c);
    }
  }

  lemma {:induction false} SplicedIsTight(l: seq<Lead>, node: Node, parts: Nodes, tail: Nodes, c: Char)
    requires AllEasy(parts) && AllEasy(tail) && Allows(First(l, Append(parts, tail)), c)
    requires forall s: Subject, i: nat, j: nat | CoversAll(parts, s, i, j) :: Covers(node, s, i, j)
    ensures Allows(l, c) || Begins(Cons(node, tail), c)
    decreases Sizes(parts) + Sizes(tail), 2
  {
    AppendSizes(parts, tail);
    AppendEasy(parts, tail);
    FirstIsTight(l, Append(parts, tail), c);
    if Begins(Append(parts, tail), c) { BeginsSpliced(node, parts, tail, c); }
  }

  lemma OptionBegins(option: Node, options: Nodes, tail: Nodes, c: Char)
    requires Begins(Cons(option, tail), c)
    requires forall s: Subject, i: nat, j: nat | Covers(option, s, i, j) :: CoversSome(options, s, i, j)
    ensures Begins(Cons(Select(options), tail), c)
  {
    var w: Subject :| w != [] && w[0] == c && Spells(Cons(option, tail), w);
    var m := HeadCovers(option, tail, w, 0, |w|);
    assert Covers(Select(options), w, 0, m);
  }

  lemma {:induction false} SelectIsTight(l: seq<Lead>, options: Nodes, tail: Nodes, c: Char)
    requires Easy(Select(options)) && AllEasy(tail) && Allows(First(l, Cons(Select(options), tail)), c)
    ensures Allows(l, c) || Begins(Cons(Select(options), tail), c)
    decreases Sizes(Cons(Select(options), tail)), 0
  {
    SelectSizes(options, tail);
    var first := First(l, Cons(options.head, tail));
    assert First(l, Cons(Select(options), tail)) == First(first, Cons(Select(options.tail), tail));
    if options.tail.Cons? { SelectIsTight(first, options.tail, tail, c); }
    if Allows(first, c) {
      FirstIsTight(l, Cons(options.head, tail), c);
      if Begins(Cons(options.head, tail), c) { OptionBegins(options.head, options, tail, c); }
    } else {
      OptionBegins(Select(options.tail), options, tail, c);
    }
  }

  lemma {:induction false} RepeatIsTight(l: seq<Lead>, mode: Mode, min: nat, max: nat, content: Nodes, tail: Nodes, c: Char)
    requires Easy(Repeat(mode, min, max, content)) && AllEasy(tail)
    requires Allows(First(l, Cons(Repeat(mode, min, max, content), tail)), c)
    ensures Allows(l, c) || Begins(Cons(Repeat(mode, min, max, content), tail), c)
    decreases Sizes(Cons(Repeat(mode, min, max, content), tail)), 0
  {
    var all := Append(content, tail);
    AppendSizes(content, tail);
    AppendEasy(content, tail);
    assert Sizes(Cons(Repeat(mode, min, max, content), tail)) == 3 + Sizes(content) + Sizes(tail);
    if min == 0 && max == 1 && !mode.Possessive? {
      FirstIsTight(First(l, all), tail, c);
      if Allows(First(l, all), c) { FirstIsTight(l, all, c); }
    } else if min == 0 {
      FirstIsTight(First(l, tail), all, c);
      if Allows(First(l, tail), c) { FirstIsTight(l, tail, c); }
    } else {
      FirstIsTight(l, all, c);
    }
    if Begins(all, c) { RepeatBegins(mode, min, max, content, tail, c); }
    if min == 0 && Begins(tail, c) { NoIteration(mode, max, content, tail, c); }
  }

  lemma {:induction false} EasyIsPlain(nodes: Nodes)
    requires AllEasy(nodes)
    ensures AllPlain(nodes)
  {
    if nodes.Cons? {
      EasyIsPlain(nodes.tail);
      match nodes.head
      case Sequence(parts) => EasyIsPlain(parts);
      case Select(options) => EasyIsPlain(options);
      case Capture(_, content) => EasyIsPlain(content);
      case Repeat(_, _, _, content) => EasyIsPlain(content);
      case _ =>
    }
  }

  /** The first set of a pattern is the set of characters that its texts begin with. */
  lemma {:induction false} FirstIsExact(k: Nodes, c: Char)
    requires AllEasy(k)
    ensures Allows(First([], k), c) <==> Begins(k, c)
  {
    if Allows(First([], k), c) { FirstIsTight([], k, c); }
    if Begins(k, c) {
      var w: Subject :| w != [] && w[0] == c && Spells(k, w);
      EasyIsPlain(k);
      AppendWellEnded(k, Nil);
      AppendNil(k);
      FirstCovers([], k, Nil, w, 0, |w|);
    }
  }

  // ----- the collision test -----

  predicate ProperLead(lead: Lead) {
    lead.Of? ==> Proper(lead.item)
  }

  predicate ProperLeads(l: seq<Lead>) {
    forall lead | lead in l :: ProperLead(lead)
  }

  /** Not empty, with characters at both ends. */
  predicate OfChars(x: Interval) {
    -0x8000_0000 <= x.low <= x.high <= 0xffff_ffff
  }

  predicate AllOfChars(xs: seq<Interval>) {
    forall x | x in xs :: OfChars(x)
  }

  lemma {:induction false} IntervalsAreTight(item: Item)
    requires Proper(item)
    ensures Intervals(item) != [] && AllOfChars(Intervals(item))
    ensures forall c: Char :: SomeHas(Intervals(item), c) <==> MatchItem(item, c)
  {
    match item
    case CharSet(items) => IntervalsOfAreTight(items);
    case Enumeration(values) => ValuesAreTight(values);
    case Character(v) => OneIsTight(Interval(v, v));
    case CharRange(low, high) => OneIsTight(Interval(low, high));
  }

  lemma OneIsTight(x: Interval)
    ensures forall c: Char :: SomeHas([x], c) <==> x.Has(c)
  {
    assert x in [x];
  }

  lemma ValuesAreTight(values: seq<Code>)
    requires forall v | v in values :: IsChar(v)
    ensures |Intervals(Enumeration(values))| == |values| && AllOfChars(Intervals(Enumeration(values)))
    ensures forall c: Char :: SomeHas(Intervals(Enumeration(values)), c) <==> c in values
  {
    var xs := Intervals(Enumeration(values));
    forall i | 0 <= i < |xs|
      ensures OfChars(xs[i])
    {
      assert values[i] in values;
    }
    forall c: Char
      ensures SomeHas(xs, c) <==> c in values
    {
      if c in values {
        var i :| 0 <= i < |values| && values[i] == c;
        assert xs[i] in xs && xs[i].Has(c);
      }
    }
  }

  lemma {:induction false} IntervalsOfAreTight(items: Items)
    requires AllProper(items)
    ensures (items.MoreItems? ==> IntervalsOf(items) != []) && AllOfChars(IntervalsOf(items))
    ensures forall c: Char :: SomeHas(IntervalsOf(items), c) <==> MatchSome(items, c)
  {
    if items.MoreItems? {
      IntervalsAreTight(items.first);
      IntervalsOfAreTight(items.rest);
      forall c: Char
        ensures SomeHas(IntervalsOf(items), c) <==> MatchSome(items, c)
      {
        SomeHasConcat(Intervals(items.first), IntervalsOf(items.rest), c);
      }
    }
  }

  /** An interval of characters, or everything. */
  predicate Sound(x: Interval) {
    OfChars(x) || x == EVERYTHING
  }

  predicate AllSound(xs: seq<Interval>) {
    forall x | x in xs :: Sound(x)
  }

  lemma InsertAllSound(points: seq<Interval>, xs: seq<Interval>)
    requires AllSound(points) && AllOfChars(xs)
    ensures AllSound(InsertAll(points, xs)) && |InsertAll(points, xs)| == |points| + |xs|
  {
    InsertAllKeeps(points, xs);
    var all := InsertAll(points, xs);
    assert |multiset(all)| == |all| && |multiset(points) + multiset(xs)| == |points| + |xs|;
    forall x | x in all
      ensures Sound(x)
    {
      assert x in multiset(all) && (x in multiset(points) || x in multiset(xs));
      assert x in points || x in xs;
    }
  }

  /** The point set has the characters that it had and those of the first set, and none else. */
  lemma {:induction false} PopulateIsTight(points: seq<Interval>, l: seq<Lead>)
    requires ProperLeads(l) && AllSound(points)
    ensures AllSound(Populate(points, l))
    ensures forall c: Char :: SomeHas(Populate(points, l), c) <==> SomeHas(points, c) || Allows(l, c)
    decreases |l|
  {
    if l != [] {
      assert l[0] in l && forall lead | lead in l[1..] :: lead in l;
      var next := match l[0] case CanBeAnything => [EVERYTHING] case Of(item) => InsertAll(points, Intervals(item));
      assert AllSound(next) && forall c: Char :: SomeHas(next, c) || Allows(l[1..], c) <==> SomeHas(points, c) || Allows(l, c) by {
        OneLeadIsTight(points, l, next);
      }
      PopulateIsTight(next, l[1..]);
    }
  }

  lemma {:induction false} OneLeadIsTight(points: seq<Interval>, l: seq<Lead>, next: seq<Interval>)
    requires l != [] && ProperLead(l[0]) && AllSound(points)
    requires next == match l[0] case CanBeAnything => [EVERYTHING] case Of(item) => InsertAll(points, Intervals(item))
    ensures AllSound(next)
    ensures forall c: Char :: SomeHas(next, c) || Allows(l[1..], c) <==> SomeHas(points, c) || Allows(l, c)
  {
    if l[0].Of? {
      IntervalsAreTight(l[0].item);
      InsertAllSound(points, Intervals(l[0].item));
    } else {
      assert next[0] == EVERYTHING;
    }
    forall c: Char
      ensures SomeHas(next, c) || Allows(l[1..], c) <==> SomeHas(points, c) || Allows(l, c)
    {
      assert l == [l[0]] + l[1..];
      AllowsConcat([l[0]], l[1..], c);
      assert Allows([l[0]], c) <==> InLead(l[0], c) by { assert l[0] in [l[0]]; }
      if l[0].Of? { InsertAllHas(points, Intervals(l[0].item), c); } else { assert next[0].Has(c); }
    }
  }

  /** A lead is hit exactly if it allows a character of the points. */
  lemma CheckIsTight(points: seq<Interval>, lead: Lead)
    requires AllSound(points) && ProperLead(lead)
    ensures CheckLead(points, lead) <==> exists c: Char :: SomeHas(points, c) && InLead(lead, c)
  {
    if CheckLead(points, lead) {
      if lead.CanBeAnything? {
        assert points[0] in points && Sound(points[0]);
        var c: Char := if points[0] == EVERYTHING then 0 else points[0].low;
        assert points[0].Has(c) && SomeHas(points, c) && InLead(lead, c);
      } else {
        IntervalsAreTight(lead.item);
        var x :| x in Intervals(lead.item) && MeetsSome(points, x);
        var i :| 0 <= i < |points| && points[i].Meets(x);
        assert points[i] in points && Sound(points[i]) && OfChars(x);
        var c: Char := if points[i].low <= x.low then x.low else points[i].low;
        assert points[i].Has(c) && x.Has(c);
        assert SomeHas(points, c) && SomeHas(Intervals(lead.item), c);
      }
    }
    if c: Char :| SomeHas(points, c) && InLead(lead, c) {
      var x :| x in points && x.Has(c);
      var i :| 0 <= i < |points| && points[i] == x;
      if lead.Of? {
        IntervalsAreTight(lead.item);
        var y :| y in Intervals(lead.item) && y.Has(c);
        MeetsIsOverlap(points[i], y);
        assert MeetsSome(points, y);
      }
    }
  }

  /** For first sets of plain character classes the test answers yes exactly if they have a character in common. */
  lemma CollidesIsExact(a: seq<Lead>, b: seq<Lead>)
    requires ProperLeads(a) && ProperLeads(b)
    ensures Collides(a, b) <==> exists c: Char :: Allows(a, c) && Allows(b, c)
  {
    var points := Populate([], a);
    PopulateIsTight([], a);
    if Collides(a, b) {
      var lead :| lead in b && CheckLead(points, lead);
      CheckIsTight(points, lead);
      var c: Char :| SomeHas(points, c) && InLead(lead, c);
      assert Allows(b, c);
    }
    if c: Char :| Allows(a, c) && Allows(b, c) {
      var lead :| lead in b && InLead(lead, c);
      CheckIsTight(points, lead);
    }
  }

  lemma {:induction false} SpreadIsProper(items: Items)
    requires AllProper(items)
    ensures ProperLeads(Spread(items))
  {
    if items.MoreItems? { SpreadIsProper(items.rest); }
  }

  lemma {:induction false} FirstIsProper(l: seq<Lead>, k: Nodes)
    requires AllEasy(k) && ProperLeads(l)
    ensures ProperLeads(First(l, k))
    decreases Sizes(k)
  {
    if k.Cons? {
      var Cons(head, tail) := k;
      assert Easy(head) && AllEasy(tail);
      match head
      case One(item) => if item.CharSet? { SpreadIsProper(item.items); }
      case AnyChar =>
      case Text(chars) => if |chars| == 0 { FirstIsProper(l, tail); }
      case Empty => FirstIsProper(l, tail);
      case Sequence(parts) =>
        AppendSizes(parts, tail); assert Sizes(k) == 1 + 2 * Sizes(parts) + Sizes(tail);
        AppendEasy(parts, tail);
        FirstIsProper(l, Append(parts, tail));
      case Select(options) =>
        SelectSizes(options, tail);
        FirstIsProper(l, Cons(options.head, tail));
        if options.tail.Cons? { FirstIsProper(First(l, Cons(options.head, tail)), Cons(Select(options.tail), tail)); }
      case Capture(_, content) =>
        AppendSizes(content, tail); assert Sizes(k) == 3 + 2 * Sizes(content) + Sizes(tail);
        AppendEasy(content, tail);
        FirstIsProper(l, Append(content, tail));
      case Repeat(mode, min, max, content) =>
        var all := Append(content, tail);
        assert AllEasy(content);
        AppendSizes(content, tail); assert Sizes(k) == 3 + Sizes(content) + Sizes(tail);
        AppendEasy(content, tail);
        FirstIsProper(l, all);
        FirstIsProper(l, tail);
        FirstIsProper(First(l, all), tail);
        FirstIsProper(First(l, tail), all);
    }
  }

  /** So the optimiser leaves a greedy repeat alone exactly if some character can begin both another iteration and what
      follows. */
  lemma OptimisesWhen(content: Nodes, tail: Nodes)
    requires AllEasy(content) && AllEasy(tail)
    ensures Collides(First([], content), First([], tail)) <==> exists c: Char :: Begins(content, c) && Begins(tail, c)
  {
    FirstIsProper([], content);
    FirstIsProper([], tail);
    CollidesIsExact(First([], content), First([], tail));
    forall c: Char
      ensures Allows(First([], content), c) && Allows(First([], tail), c) <==> Begins(content, c) && Begins(tail, c)
    {
      FirstIsExact(content, c);
      FirstIsExact(tail, c);
    }
  }
}
