/** Which of the possible matches the evaluator takes: the first option that leads on, most iterations when greedy, fewest
    when lazy, all there can be when possessive.  This holds for any content and any rest of the stack. */
module RegexPreference {
  import opened RegexSyntax
  import opened RegexEvaluator
  import opened RegexLanguage
  import opened RegexSoundness
  import opened FirstSets

  // ----- options -----

  function Length(nodes: Nodes): nat {
    match nodes
    case Nil => 0
    case Cons(_, tail) => 1 + Length(tail)
  }

  function Nth(nodes: Nodes, i: nat): Node
    requires i < Length(nodes)
  {
    if i == 0 then nodes.head else Nth(nodes.tail, i - 1)
  }

  /** A choice decides as its first option that does not fail; it fails if all do. */
  lemma {:induction false} FirstOption(optimise: bool, s: Subject, p: nat, blocked: bool, r: Results, options: Nodes, tail: Nodes)
    returns (i: nat)
    requires p <= |s|
    ensures i <= Length(options)
    ensures Eval(optimise, s, p, blocked, r, Cons(Select(options), tail)) ==
      if i == Length(options) then NotMatched else Eval(optimise, s, p, blocked, r, Cons(Nth(options, i), tail))
    ensures forall j: nat | j < i :: Eval(optimise, s, p, blocked, r, Cons(Nth(options, j), tail)).NotMatched?
    ensures i < Length(options) ==> !Eval(optimise, s, p, blocked, r, Cons(Nth(options, i), tail)).NotMatched?
    decreases options
  {
    if options.Nil? {
      i := 0;
    } else if Eval(optimise, s, p, blocked, r, Cons(options.head, tail)).NotMatched? {
      i := FirstOption(optimise, s, p, blocked, r, options.tail, tail);
      i := i + 1;
    } else {
      i := 0;
    }
  }

  // ----- texts -----

  function Letters(chars: seq<Code>): Nodes {
    if chars == [] then Nil else Cons(One(Character(chars[0])), Letters(chars[1..]))
  }

  /** A text is its characters, one after the other. */
  lemma {:induction false} TextIsLetters(optimise: bool, s: Subject, p: nat, blocked: bool, r: Results, chars: seq<Code>, tail: Nodes)
    requires p <= |s|
    ensures Eval(optimise, s, p, blocked, r, Cons(Text(chars), tail)) == Eval(optimise, s, p, blocked, r, Append(Letters(chars), tail))
    decreases |chars|
  {
    if chars != [] {
      var rest := chars[1..];
      assert Append(Letters(chars), tail) == Cons(One(Character(chars[0])), Append(Letters(rest), tail));
      assert TextAt(s, p, chars) <==> p < |s| && s[p] == chars[0] && TextAt(s, p + 1, rest) by { TextFirst(s, p, chars); }
      if p < |s| && s[p] == chars[0] {
        TextIsLetters(optimise, s, p + 1, false, r, rest, tail);
      }
    }
  }

  lemma TextFirst(s: Subject, p: nat, chars: seq<Code>)
    requires chars != []
    ensures TextAt(s, p, chars) <==> p < |s| && s[p] == chars[0] && TextAt(s, p + 1, chars[1..])
  {
    if p < |s| && s[p] == chars[0] && TextAt(s, p + 1, chars[1..]) {
      forall i | 0 <= i < |chars|
        ensures s[p + i] == chars[i]
      {
        assert i > 0 ==> s[p + 1 + (i - 1)] == chars[1..][i - 1];
      }
    }
    if TextAt(s, p, chars) {
      forall i | 0 <= i < |chars[1..]|
        ensures s[p + 1 + i] == chars[1..][i]
      {
        assert s[p + (i + 1)] == chars[i + 1];
      }
    }
  }

  // ----- repeats -----

  /** What comes of the rest of the stack after exactly `m` iterations; there may not be so many.  A lazy repeat that has
      its last iteration and fails tries again without the flag that forbids an empty match. */
  function Attempt(optimise: bool, s: Subject, p: nat, blocked: bool, r: Results, mode: Mode, min: nat, max: nat,
                   content: Nodes, tail: Nodes, m: nat): Outcome
    requires p <= |s|
  {
    match Iterate(optimise, s, p, r, content, m)
    case At(q, r') =>
      var flagged := Eval(optimise, s, q, blocked && p == q, r', tail);
      if mode.Possessive? || (mode.Lazy? && m == min && (m < max || max == 0 || !flagged.NotMatched?)) then flagged
      else Eval(optimise, s, q, false, r', tail)
    case _ => NotMatched
  }

  predicate InRange(min: nat, max: nat, m: nat) {
    min <= m && (max == 0 || m <= max)
  }

  /** The number of iterations that each mode prefers among those after which the rest matches. */
  ghost predicate Preferred(optimise: bool, s: Subject, p: nat, blocked: bool, r: Results, mode: Mode, min: nat, max: nat,
                            content: Nodes, tail: Nodes, n: nat)
    requires p <= |s|
  {
    match mode
    case Greedy => forall m: nat | InRange(n + 1, max, m) :: Attempt(optimise, s, p, blocked, r, mode, min, max, content, tail, m).NotMatched?
    case Lazy => forall m: nat | min <= m < n :: Attempt(optimise, s, p, blocked, r, mode, min, max, content, tail, m).NotMatched?
    case Possessive => n == max > 0 || Iterate(optimise, s, p, r, content, n + 1).Stuck?
  }

  lemma {:induction false} IterateAdd(optimise: bool, s: Subject, p: nat, r: Results, content: Nodes, a: nat, b: nat)
    requires p <= |s|
    ensures Iterate(optimise, s, p, r, content, a + b) ==
      match Iterate(optimise, s, p, r, content, a)
      case At(q, r') => Iterate(optimise, s, q, r', content, b)
      case other => other
    decreases a
  {
    if a > 0 {
      match Iteration(optimise, s, p, r, content)
      case Matched(r') => IterateAdd(optimise, s, r'.end, r', content, a - 1, b);
      case _ =>
    }
  }

  /** What comes of the rest after `m` more iterations. */
  function Later(optimise: bool, s: Subject, p: nat, r: Results, content: Nodes, tail: Nodes, m: nat): Outcome
    requires p <= |s|
  {
    match Iterate(optimise, s, p, r, content, m)
    case At(q, r') => Eval(optimise, s, q, false, r', tail)
    case _ => NotMatched
  }

  lemma LaterFirst(optimise: bool, s: Subject, p: nat, r: Results, content: Nodes, tail: Nodes, m: nat)
    requires p <= |s| && m > 0
    ensures Later(optimise, s, p, r, content, tail, m) ==
      match Iteration(optimise, s, p, r, content)
      case Matched(r') => Later(optimise, s, r'.end, r', content, tail, m - 1)
      case _ => NotMatched
  {
  }

  lemma {:induction false} GreedyMost(optimise: bool, s: Subject, p: nat, r: Results, max: nat, content: Nodes, tail: Nodes, i: nat)
    returns (n: nat)
    requires p <= |s| && InRange(0, max, i) && !GreedyRest(optimise, s, p, r, max, content, tail, i).Diverges?
    ensures var o := GreedyRest(optimise, s, p, r, max, content, tail, i);
      if o.Matched? then
        InRange(0, max, i + n) && Iterate(optimise, s, p, r, content, n).At? && o == Later(optimise, s, p, r, content, tail, n)
      else n == 0
    ensures forall m: nat | (m > n || GreedyRest(optimise, s, p, r, max, content, tail, i).NotMatched?) && InRange(0, max, i + m) ::
      Later(optimise, s, p, r, content, tail, m).NotMatched?
    decreases |s| - p, if i < max then max - i else 0
  {
    n := 0;
    var o := Iteration(optimise, s, p, r, content);
    if LessThanOrInfinite(max, i) && o.Matched? {
      var r' := o.results;
      n := GreedyMost(optimise, s, r'.end, r', max, content, tail, i + 1);
      if GreedyRest(optimise, s, r'.end, r', max, content, tail, i + 1).Matched? { n := n + 1; }
    }
    forall m: nat | (m > n || GreedyRest(optimise, s, p, r, max, content, tail, i).NotMatched?) && InRange(0, max, i + m)
      ensures Later(optimise, s, p, r, content, tail, m).NotMatched?
    {
      if m > 0 {
        LaterFirst(optimise, s, p, r, content, tail, m);
        assert o.Matched? ==> InRange(0, max, i + 1 + (m - 1));
      } else {
        assert Later(optimise, s, p, r, content, tail, 0) == Eval(optimise, s, p, false, r, tail);
      }
    }
  }

  lemma {:induction false} LazyLeast(optimise: bool, s: Subject, p: nat, r: Results, max: nat, content: Nodes, tail: Nodes, i: nat)
    returns (n: nat)
    requires p <= |s| && InRange(0, max, i) && LazyRest(optimise, s, p, r, max, content, tail, i).Matched?
    requires LessThanOrInfinite(max, i)
    ensures n > 0 && InRange(0, max, i + n) && Iterate(optimise, s, p, r, content, n).At?
    ensures LazyRest(optimise, s, p, r, max, content, tail, i) == Later(optimise, s, p, r, content, tail, n)
    ensures forall m: nat | 0 < m < n :: Later(optimise, s, p, r, content, tail, m).NotMatched?
    decreases |s| - p, if i < max then max - i else 0
  {
    var r' := Iteration(optimise, s, p, r, content).results;
    n := 1;
    assert Iterate(optimise, s, p, r, content, 1) == At(r'.end, r');
    if Eval(optimise, s, r'.end, false, r', tail).NotMatched? {
      n := LazyLeast(optimise, s, r'.end, r', max, content, tail, i + 1);
      n := n + 1;
      forall m: nat | 0 < m < n
        ensures Later(optimise, s, p, r, content, tail, m).NotMatched?
      {
        LaterFirst(optimise, s, p, r, content, tail, m);
      }
    }
  }

  lemma {:induction false} PossessiveAll(optimise: bool, s: Subject, p: nat, r: Results, content: Nodes, min: nat, max: nat, i: nat)
    returns (n: nat)
    requires p <= |s| && InRange(0, max, i) && Exhaust(optimise, s, p, r, content, min, max, i).At?
    requires max == 0 || min <= max
    ensures InRange(min, max, i + n) && Iterate(optimise, s, p, r, content, n) == Exhaust(optimise, s, p, r, content, min, max, i)
    ensures i + n == max > 0 || Iterate(optimise, s, p, r, content, n + 1).Stuck?
    decreases |s| - p, if i < max then max - i else 0
  {
    n := 0;
    if LessThanOrInfinite(max, i) && Iteration(optimise, s, p, r, content).Matched? {
      var r' := Iteration(optimise, s, p, r, content).results;
      n := PossessiveAll(optimise, s, r'.end, r', content, min, max, i + 1);
      n := n + 1;
    }
  }

  /** A repeat that matches with the rest of the stack takes, within its bounds, the number of iterations that its mode
      prefers: the largest after which the rest matches, the smallest, or as many as there are. */
  lemma {:induction false} RepeatTakes(optimise: bool, s: Subject, p: nat, blocked: bool, r: Results,
                                       mode: Mode, min: nat, max: nat, content: Nodes, tail: Nodes) returns (n: nat)
    requires p <= |s| && Eval(optimise, s, p, blocked, r, Cons(Repeat(mode, min, max, content), tail)).Matched?
    requires mode.Greedy? && optimise ==> Collides(First([], content), First([], tail))
    ensures InRange(min, max, n) && Iterate(optimise, s, p, r, content, n).At?
    ensures Eval(optimise, s, p, blocked, r, Cons(Repeat(mode, min, max, content), tail)) ==
      Attempt(optimise, s, p, blocked, r, mode, min, max, content, tail, n)
    ensures Preferred(optimise, s, p, blocked, r, mode, min, max, content, tail, n)
  {
    assert Eval(optimise, s, p, blocked, r, Cons(Repeat(mode, min, max, content), tail)) ==
      EvalRepeat(optimise, s, p, blocked, r, mode, min, max, content, tail);
    match mode
    case Possessive => n := PossessiveAll(optimise, s, p, r, content, min, max, 0);
    case Greedy => n := GreedyTakes(optimise, s, p, blocked, r, min, max, content, tail);
    case Lazy => n := LazyTakes(optimise, s, p, blocked, r, min, max, content, tail);
  }

  lemma {:induction false} GreedyTakes(optimise: bool, s: Subject, p: nat, blocked: bool, r: Results,
                                       min: nat, max: nat, content: Nodes, tail: Nodes) returns (n: nat)
    requires p <= |s| && EvalRepeat(optimise, s, p, blocked, r, Greedy, min, max, content, tail).Matched?
    requires optimise ==> Collides(First([], content), First([], tail))
    ensures InRange(min, max, n) && Iterate(optimise, s, p, r, content, n).At?
    ensures EvalRepeat(optimise, s, p, blocked, r, Greedy, min, max, content, tail) ==
      Attempt(optimise, s, p, blocked, r, Greedy, min, max, content, tail, n)
    ensures Preferred(optimise, s, p, blocked, r, Greedy, min, max, content, tail, n)
  {
    var At(q, r') := Iterate(optimise, s, p, r, content, min);
    assert EvalRepeat(optimise, s, p, blocked, r, Greedy, min, max, content, tail)
        == AfterMinimum(optimise, s, p, blocked, q, r', Greedy, min, max, content, tail)
        == GreedyRest(optimise, s, q, r', max, content, tail, min);
    var more := GreedyMost(optimise, s, q, r', max, content, tail, min);
    n := min + more;
    IterateAdd(optimise, s, p, r, content, min, more);
    forall m: nat | InRange(n + 1, max, m)
      ensures Attempt(optimise, s, p, blocked, r, Greedy, min, max, content, tail, m).NotMatched?
    {
      IterateAdd(optimise, s, p, r, content, min, m - min);
      assert Later(optimise, s, q, r', content, tail, m - min).NotMatched?;
    }
  }

  lemma {:induction false} LazyTakes(optimise: bool, s: Subject, p: nat, blocked: bool, r: Results,
                                     min: nat, max: nat, content: Nodes, tail: Nodes) returns (n: nat)
    requires p <= |s| && EvalRepeat(optimise, s, p, blocked, r, Lazy, min, max, content, tail).Matched?
    ensures InRange(min, max, n) && Iterate(optimise, s, p, r, content, n).At?
    ensures EvalRepeat(optimise, s, p, blocked, r, Lazy, min, max, content, tail) ==
      Attempt(optimise, s, p, blocked, r, Lazy, min, max, content, tail, n)
    ensures Preferred(optimise, s, p, blocked, r, Lazy, min, max, content, tail, n)
  {
    var At(q, r') := Iterate(optimise, s, p, r, content, min);
    n := min;
    var now := Eval(optimise, s, q, blocked && p == q, r', tail);
    var o := EvalRepeat(optimise, s, p, blocked, r, Lazy, min, max, content, tail);
    assert o == AfterMinimum(optimise, s, p, blocked, q, r', Lazy, min, max, content, tail);
    assert o == if now.NotMatched? then LazyRest(optimise, s, q, r', max, content, tail, min) else now;
    if now.NotMatched? {
      if LessThanOrInfinite(max, min) {
        var more := LazyLeast(optimise, s, q, r', max, content, tail, min);
        n := min + more;
        IterateAdd(optimise, s, p, r, content, min, more);
        forall m: nat | min <= m < n
          ensures Attempt(optimise, s, p, blocked, r, Lazy, min, max, content, tail, m).NotMatched?
        {
          IterateAdd(optimise, s, p, r, content, min, m - min);
          assert m > min ==> Later(optimise, s, q, r', content, tail, m - min).NotMatched?;
        }
      }
    }
  }

  // ----- the span of a group -----

  /** A group that is the whole pattern spans the whole subject. */
  lemma WholeGroup(optimise: bool, id: nat, content: Nodes, s: Subject)
    requires Plain(Capture(id, content)) && WellNumberedNode(Capture(id, content))
    requires Match(optimise, Capture(id, content), s).Matched?
    ensures Match(optimise, Capture(id, content), s).results.Group(id) == Span(0, |s|, true)
  {
    var started := Results(0, 0, map[]);
    var ending := Cons(AssertEnd, Cons(EndMark, Cons(Accept, Nil)));
    assert Match(optimise, Capture(id, content), s) == Eval(optimise, s, 0, false, started, Cons(Capture(id, content), ending));
    var j, b, after := Peel(optimise, s, 0, false, started, Cons(Capture(id, content), ending));
    EndAccepted(optimise, s, j, b, after);
  }

  /** A group that is repeated keeps the span of its last iteration. */
  lemma {:induction false} RepeatedGroup(optimise: bool, s: Subject, p: nat, r: Results, id: nat, inner: Nodes, n: nat)
    requires p <= |s| && AllPlain(inner) && WellNumberedNode(Capture(id, inner))
    requires Iterate(optimise, s, p, r, Cons(Capture(id, inner), Nil), n + 1).At?
    ensures var content := Cons(Capture(id, inner), Nil);
      var before, after := Iterate(optimise, s, p, r, content, n), Iterate(optimise, s, p, r, content, n + 1);
      before.At? && after.results.Group(id) == Span(before.position, after.position, true)
  {
    var content, mark := Cons(Capture(id, inner), Nil), Cons(EndCycleMark, Nil);
    IterateAdd(optimise, s, p, r, content, n, 1);
    var At(q, r') := Iterate(optimise, s, p, r, content, n);
    assert Append(Nil, mark) == mark && Cycle(content) == Cons(Capture(id, inner), mark);
    assert Iterate(optimise, s, q, r', content, 1).results == Iteration(optimise, s, q, r', content).results;
    var j, b, after := Peel(optimise, s, q, true, r', Cycle(content));
    assert Eval(optimise, s, j, b, after, mark) == Matched(after.(end := j));
  }
}
