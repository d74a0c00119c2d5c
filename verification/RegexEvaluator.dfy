/** The backtracking evaluator.

    The source evaluates a list of nodes (the continuation stack) at a position of the subject.  Three outcomes are
    possible here: the source's two, and `Diverges` for an evaluation that the source never finishes, which happens
    exactly when an unbounded repeat goes through an iteration that consumes nothing. */
module RegexEvaluator {
  import opened RegexSyntax
  import opened FirstSets

  datatype Span = Span(begin: int, end: int, matched: bool)

  const UNSET := Span(0, 0, false)

  /** The result object without its own matched flag, which is the constructor of `Outcome`. */
  datatype Results = Results(begin: int, end: int, groups: map<nat, Span>) {
    function Group(id: nat): Span {
      if id in groups then groups[id] else UNSET
    }

    function StartCapture(id: nat, p: int): Results {
      this.(groups := groups[id := Group(id).(begin := p)])
    }

    function EndCapture(id: nat, p: int): Results {
      this.(groups := groups[id := Group(id).(end := p, matched := true)])
    }
  }

  datatype Outcome = NotMatched | Matched(results: Results) | Diverges

  /** The outcome of a loop over iterations: it gives up, it stops somewhere, or it never stops. */
  datatype Loop = Stuck | At(position: nat, results: Results) | Spins

  predicate TextAt(s: Subject, p: nat, chars: seq<Code>) {
    p + |chars| <= |s| && forall i | 0 <= i < |chars| :: s[p + i] == chars[i]
  }

  /** `optimise` is false when CTRE_DISABLE_GREEDY_OPT is defined; `blocked` is the flag that forbids an empty match. */
  function Eval(optimise: bool, s: Subject, p: nat, blocked: bool, r: Results, k: Nodes): (o: Outcome)
    requires p <= |s|
    ensures o.Matched? && EndsCycle(k) ==> p <= o.results.end <= |s|
    decreases |s| - p, Sizes(k), 3, 2
  {
    match k
    case Nil => NotMatched
    case Cons(head, tail) =>
      match head
      case One(item) =>
        if p == |s| || !MatchItem(item, s[p]) then NotMatched else Eval(optimise, s, p + 1, false, r, tail)
      case AnyChar =>
        if p == |s| then NotMatched else Eval(optimise, s, p + 1, false, r, tail)
      case Text(chars) =>
        if !TextAt(s, p, chars) then NotMatched
        else Eval(optimise, s, p + |chars|, blocked && |chars| == 0, r, tail)
      case Empty =>
        Eval(optimise, s, p, blocked, r, tail)
      case Sequence(parts) =>
        if parts.Nil? then NotMatched
        else SplitSizes(parts, tail); Eval(optimise, s, p, blocked, r, Split(parts, tail))
      case Select(options) =>
        if options.Nil? then NotMatched
        else
          SelectSizes(options, tail);
          var first := Eval(optimise, s, p, blocked, r, Cons(options.head, tail));
          if first.NotMatched? then Eval(optimise, s, p, blocked, r, Cons(Select(options.tail), tail)) else first
      case Capture(id, content) =>
        OpenSizes(id, content, tail);
        Eval(optimise, s, p, blocked, r.StartCapture(id, p), Open(id, content, tail))
      case Repeat(mode, min, max, content) =>
        assert Sizes(k) == 3 + Sizes(content) + Sizes(tail);
        EvalRepeat(optimise, s, p, blocked, r, mode, min, max, content, tail)
      case AssertBegin =>
        if p != 0 then NotMatched else Eval(optimise, s, p, blocked, r, tail)
      case AssertEnd =>
        if p != |s| then NotMatched else Eval(optimise, s, p, blocked, r, tail)
      case Reject => NotMatched
      case StartMark => Eval(optimise, s, p, blocked, r.(begin := p), tail)
      case NumericMark(id) => Eval(optimise, s, p, blocked, r.EndCapture(id, p), tail)
      case EndMark => Eval(optimise, s, p, blocked, r.(end := p), tail)
      case EndCycleMark => if tail.Cons? || blocked then NotMatched else Matched(r.(end := p))
      case Accept => if tail.Cons? then NotMatched else Matched(r)
  }

  function EvalRepeat(optimise: bool, s: Subject, p: nat, blocked: bool, r: Results,
                      mode: Mode, min: nat, max: nat, content: Nodes, tail: Nodes): (o: Outcome)
    requires p <= |s|
    ensures o.Matched? && EndsCycle(tail) ==> p <= o.results.end <= |s|
    decreases |s| - p, 3 + Sizes(content) + Sizes(tail), 3, if mode.Greedy? then 1 else 0
  {
    if max != 0 && min > max then NotMatched
    else if mode.Greedy? && optimise && !Collides(First([], content), First([], tail)) then
      EvalRepeat(optimise, s, p, blocked, r, Possessive, min, max, content, tail)
    else if mode.Possessive? then
      match Exhaust(optimise, s, p, r, content, min, max, 0)
      case Stuck => NotMatched
      case Spins => Diverges
      case At(q, r') => Eval(optimise, s, q, blocked && p == q, r', tail)
    else
      match Iterate(optimise, s, p, r, content, min)
      case Stuck => NotMatched
      case Spins => Diverges
      case At(q, r') => AfterMinimum(optimise, s, p, blocked, q, r', mode, min, max, content, tail)
  }

  /** A greedy or lazy repeat that started at `p`, after its compulsory iterations. */
  function AfterMinimum(optimise: bool, s: Subject, p: nat, blocked: bool, q: nat, r: Results,
                        mode: Mode, min: nat, max: nat, content: Nodes, tail: Nodes): (o: Outcome)
    requires p <= q <= |s|
    ensures o.Matched? && EndsCycle(tail) ==> q <= o.results.end <= |s|
    decreases |s| - q, 2 + Sizes(content) + Sizes(tail), 3
  {
    if mode.Greedy? then GreedyRest(optimise, s, q, r, max, content, tail, min)
    else
      var now := Eval(optimise, s, q, blocked && p == q, r, tail);
      if now.NotMatched? then LazyRest(optimise, s, q, r, max, content, tail, min) else now
  }

  /** One iteration of a repeat, evaluated on its own: what it matched is never revised. */
  function Iteration(optimise: bool, s: Subject, p: nat, r: Results, content: Nodes): (o: Outcome)
    requires p <= |s|
    ensures o.Matched? ==> p <= o.results.end <= |s|
    decreases |s| - p, Sizes(content) + 1, 4
  {
    AppendSizes(content, Cons(EndCycleMark, Nil));
    AppendEndsCycle(content, Cons(EndCycleMark, Nil));
    Eval(optimise, s, p, true, r, Cycle(content))
  }

  /** Exactly `n` iterations. */
  function Iterate(optimise: bool, s: Subject, p: nat, r: Results, content: Nodes, n: nat): (l: Loop)
    requires p <= |s|
    ensures l.At? ==> p <= l.position <= |s|
    decreases |s| - p, Sizes(content) + 1, 5, n
  {
    if n == 0 then At(p, r)
    else
      match Iteration(optimise, s, p, r, content)
      case NotMatched => Stuck
      case Diverges => Spins
      case Matched(r') => Iterate(optimise, s, r'.end, r', content, n - 1)
  }

  /** As many iterations as possible up to `max`; stuck when fewer than `min` are. */
  function Exhaust(optimise: bool, s: Subject, p: nat, r: Results, content: Nodes, min: nat, max: nat, i: nat): (l: Loop)
    requires p <= |s|
    ensures l.At? ==> p <= l.position <= |s|
    decreases |s| - p, Sizes(content) + 1, 5, if i < max then max - i else 0
  {
    if !LessThanOrInfinite(max, i) then At(p, r)
    else
      match Iteration(optimise, s, p, r, content)
      case NotMatched => if LessThan(min, i) then Stuck else At(p, r)
      case Diverges => Spins
      case Matched(r') =>
        if r'.end == p && max == 0 then Spins
        else Exhaust(optimise, s, r'.end, r', content, min, max, i + 1)
  }

  /** `evaluate_recursive`: iterate first, fall back to the rest of the stack. */
  function GreedyRest(optimise: bool, s: Subject, p: nat, r: Results,
                      max: nat, content: Nodes, tail: Nodes, i: nat): (o: Outcome)
    requires p <= |s|
    ensures o.Matched? && EndsCycle(tail) ==> p <= o.results.end <= |s|
    decreases |s| - p, Sizes(content) + 2 + Sizes(tail), 2, if i < max then max - i else 0
  {
    if LessThanOrInfinite(max, i) then
      match Iteration(optimise, s, p, r, content)
      case Diverges => Diverges
      case NotMatched => Eval(optimise, s, p, false, r, tail)
      case Matched(r') =>
        if r'.end == p && max == 0 then Diverges
        else
          var deeper := GreedyRest(optimise, s, r'.end, r', max, content, tail, i + 1);
          if deeper.NotMatched? then Eval(optimise, s, p, false, r, tail) else deeper
    else
      Eval(optimise, s, p, false, r, tail)
  }

  /** The second loop of a lazy repeat: one more iteration each time the rest of the stack fails. */
  function LazyRest(optimise: bool, s: Subject, p: nat, r: Results,
                    max: nat, content: Nodes, tail: Nodes, i: nat): (o: Outcome)
    requires p <= |s|
    ensures o.Matched? && EndsCycle(tail) ==> p <= o.results.end <= |s|
    decreases |s| - p, Sizes(content) + 2 + Sizes(tail), 2, if i < max then max - i else 0
  {
    if LessThanOrInfinite(max, i) then
      match Iteration(optimise, s, p, r, content)
      case Diverges => Diverges
      case NotMatched => NotMatched
      case Matched(r') =>
        var now := Eval(optimise, s, r'.end, false, r', tail);
        if !now.NotMatched? then now
        else if r'.end == p && max == 0 then Diverges
        else LazyRest(optimise, s, r'.end, r', max, content, tail, i + 1)
    else
      Eval(optimise, s, p, false, r, tail)
  }

  /** `match_method::exec`: the whole subject has to match. */
  function MatchStack(re: Node): Nodes {
    Cons(StartMark, Cons(re, Cons(AssertEnd, Cons(EndMark, Cons(Accept, Nil)))))
  }

  function Match(optimise: bool, re: Node, s: Subject): Outcome {
    Eval(optimise, s, 0, false, Results(0, 0, map[]), MatchStack(re))
  }
}
