/** The evaluator as the source writes it: the loops over iterations update a position, the captures and a counter.
    Each method computes the value of the function it is named after. */
module RegexLoops {
  import opened RegexSyntax
  import opened RegexEvaluator
  import opened FirstSets
  import opened PointSets

  method Evaluate(optimise: bool, s: Subject, p: nat, blocked: bool, r: Results, k: Nodes) returns (o: Outcome)
    requires p <= |s|
    ensures o == Eval(optimise, s, p, blocked, r, k)
    decreases |s| - p, Sizes(k), 3, 2
  {
    if k.Nil? { return NotMatched; }
    var Cons(head, tail) := k;
    match head {
      case One(item) =>
        if p == |s| || !MatchItem(item, s[p]) { return NotMatched; }
        o := Evaluate(optimise, s, p + 1, false, r, tail);
      case AnyChar =>
        if p == |s| { return NotMatched; }
        o := Evaluate(optimise, s, p + 1, false, r, tail);
      case Text(chars) =>
        var matched, q := MatchString(s, p, chars);
        if !matched { return NotMatched; }
        o := Evaluate(optimise, s, q, blocked && |chars| == 0, r, tail);
      case Empty => o := Evaluate(optimise, s, p, blocked, r, tail);
      case Sequence(parts) =>
        if parts.Nil? { return NotMatched; }
        SplitSizes(parts, tail);
        o := Evaluate(optimise, s, p, blocked, r, Split(parts, tail));
      case Select(options) =>
        if options.Nil? { return NotMatched; }
        SelectSizes(options, tail);
        o := Evaluate(optimise, s, p, blocked, r, Cons(options.head, tail));
        if o.NotMatched? { o := Evaluate(optimise, s, p, blocked, r, Cons(Select(options.tail), tail)); }
      case Capture(id, content) =>
        OpenSizes(id, content, tail);
        o := Evaluate(optimise, s, p, blocked, r.StartCapture(id, p), Open(id, content, tail));
      case Repeat(mode, min, max, content) =>
        assert Sizes(k) == 3 + Sizes(content) + Sizes(tail);
        o := EvaluateRepeat(optimise, s, p, blocked, r, mode, min, max, content, tail);
      case AssertBegin =>
        if p != 0 { return NotMatched; }
        o := Evaluate(optimise, s, p, blocked, r, tail);
      case AssertEnd =>
        if p != |s| { return NotMatched; }
        o := Evaluate(optimise, s, p, blocked, r, tail);
      case Reject => o := NotMatched;
      case StartMark => o := Evaluate(optimise, s, p, blocked, r.(begin := p), tail);
      case NumericMark(id) => o := Evaluate(optimise, s, p, blocked, r.EndCapture(id, p), tail);
      case EndMark => o := Evaluate(optimise, s, p, blocked, r.(end := p), tail);
      case EndCycleMark => o := if tail.Cons? || blocked then NotMatched else Matched(r.(end := p));
      case Accept => o := if tail.Cons? then NotMatched else Matched(r);
    }
  }

  /** `match_string`: character by character. */
  method MatchString(s: Subject, p: nat, chars: seq<Code>) returns (matched: bool, q: nat)
    requires p <= |s|
    ensures matched <==> TextAt(s, p, chars)
    ensures matched ==> q == p + |chars|
  {
    q := p;
    for i := 0 to |chars|
      invariant q == p + i <= |s|
      invariant forall j | 0 <= j < i :: s[p + j] == chars[j]
    {
      if q == |s| || s[q] != chars[i] {
        assert q < |s| ==> s[p + i] != chars[i];
        return false, q;
      }
      q := q + 1;
    }
    matched := true;
  }

  method EvaluateIteration(optimise: bool, s: Subject, p: nat, r: Results, content: Nodes) returns (o: Outcome)
    requires p <= |s|
    ensures o == Iteration(optimise, s, p, r, content)
    decreases |s| - p, Sizes(content) + 1, 4
  {
    AppendSizes(content, Cons(EndCycleMark, Nil));
    o := Evaluate(optimise, s, p, true, r, Cycle(content));
  }

  method EvaluateRepeat(optimise: bool, s: Subject, p: nat, blocked: bool, r: Results,
                        mode: Mode, min: nat, max: nat, content: Nodes, tail: Nodes) returns (o: Outcome)
    requires p <= |s|
    ensures o == EvalRepeat(optimise, s, p, blocked, r, mode, min, max, content, tail)
    decreases |s| - p, 3 + Sizes(content) + Sizes(tail), 3, if mode.Greedy? then 1 else 0
  {
    if max != 0 && min > max { return NotMatched; }
    match mode {
      case Possessive => o := EvaluatePossessive(optimise, s, p, blocked, r, min, max, content, tail);
      case Lazy => o := EvaluateLazy(optimise, s, p, blocked, r, min, max, content, tail);
      case Greedy =>
        var collides := CollidesInPlace(First([], content), First([], tail));
        if optimise && !collides {
          o := EvaluateRepeat(optimise, s, p, blocked, r, Possessive, min, max, content, tail);
        } else {
          var l := CompulsoryIterations(optimise, s, p, r, content, min);
          match l {
            case Stuck => o := NotMatched;
            case Spins => o := Diverges;
            case At(q, r') => o := EvaluateRecursive(optimise, s, q, r', max, content, tail, min);
          }
        }
    }
  }

  /** The loop over the compulsory iterations, shared by the greedy and the lazy repeat. */
  method CompulsoryIterations(optimise: bool, s: Subject, p: nat, r: Results, content: Nodes, min: nat) returns (l: Loop)
    requires p <= |s|
    ensures l == Iterate(optimise, s, p, r, content, min)
    decreases |s| - p, Sizes(content) + 1, 5
  {
    var current, captures, i := p, r, 0;
    while LessThan(min, i)
      invariant p <= current <= |s| && i <= min
      invariant Iterate(optimise, s, p, r, content, min) == Iterate(optimise, s, current, captures, content, min - i)
      decreases min - i
    {
      var inner := EvaluateIteration(optimise, s, current, captures, content);
      match inner {
        case NotMatched => return Stuck;
        case Diverges => return Spins;
        case Matched(r') =>
          captures := r';
          current := r'.end;
      }
      i := i + 1;
    }
    l := At(current, captures);
  }

  method EvaluatePossessive(optimise: bool, s: Subject, p: nat, blocked: bool, r: Results,
                            min: nat, max: nat, content: Nodes, tail: Nodes) returns (o: Outcome)
    requires p <= |s| && (max == 0 || min <= max)
    ensures o == EvalRepeat(optimise, s, p, blocked, r, Possessive, min, max, content, tail)
    decreases |s| - p, 3 + Sizes(content) + Sizes(tail), 2
  {
    var current, captures, i := p, r, 0;
    while LessThanOrInfinite(max, i)
      invariant p <= current <= |s| && (max == 0 || i <= max)
      invariant Exhaust(optimise, s, p, r, content, min, max, 0) == Exhaust(optimise, s, current, captures, content, min, max, i)
      decreases |s| - current, max - i
    {
      var inner := EvaluateIteration(optimise, s, current, captures, content);
      match inner {
        case NotMatched =>
          if !LessThan(min, i) { break; }
          return NotMatched;
        case Diverges => return Diverges;
        case Matched(r') =>
          if r'.end == current && max == 0 { return Diverges; }
          captures := r';
          current := r'.end;
      }
      i := i + 1;
    }
    o := Evaluate(optimise, s, current, blocked && p == current, captures, tail);
  }

  method EvaluateLazy(optimise: bool, s: Subject, p: nat, blocked: bool, r: Results,
                      min: nat, max: nat, content: Nodes, tail: Nodes) returns (o: Outcome)
    requires p <= |s| && (max == 0 || min <= max)
    ensures o == EvalRepeat(optimise, s, p, blocked, r, Lazy, min, max, content, tail)
    decreases |s| - p, 3 + Sizes(content) + Sizes(tail), 2
  {
    var l := CompulsoryIterations(optimise, s, p, r, content, min);
    if l.Stuck? { return NotMatched; }
    if l.Spins? { return Diverges; }
    var At(current, captures) := l;
    o := Evaluate(optimise, s, current, blocked && p == current, captures, tail);
    if !o.NotMatched? { return; }
    o := LazyIterations(optimise, s, current, captures, max, content, tail, min);
  }

  /** The second loop: one more iteration each time the rest of the stack fails. */
  method LazyIterations(optimise: bool, s: Subject, p: nat, r: Results, max: nat, content: Nodes, tail: Nodes, start: nat)
    returns (o: Outcome)
    requires p <= |s| && (max == 0 || start <= max)
    ensures o == LazyRest(optimise, s, p, r, max, content, tail, start)
    decreases |s| - p, 3 + Sizes(content) + Sizes(tail), 1
  {
    var current, captures, i: nat := p, r, start;
    while LessThanOrInfinite(max, i)
      invariant p <= current <= |s| && (max == 0 || i <= max)
      invariant LazyRest(optimise, s, p, r, max, content, tail, start) == LazyRest(optimise, s, current, captures, max, content, tail, i)
      decreases |s| - current, max - i
    {
      var inner := EvaluateIteration(optimise, s, current, captures, content);
      match inner {
        case NotMatched => return NotMatched;
        case Diverges => return Diverges;
        case Matched(r') =>
          o := Evaluate(optimise, s, r'.end, false, r', tail);
          if !o.NotMatched? { return; }
          if r'.end == current && max == 0 { return Diverges; }
          captures := r';
          current := r'.end;
      }
      i := i + 1;
    }
    o := Evaluate(optimise, s, current, false, captures, tail);
  }

  method EvaluateRecursive(optimise: bool, s: Subject, p: nat, r: Results,
                           max: nat, content: Nodes, tail: Nodes, i: nat) returns (o: Outcome)
    requires p <= |s|
    ensures o == GreedyRest(optimise, s, p, r, max, content, tail, i)
    decreases |s| - p, Sizes(content) + 2 + Sizes(tail), 2, if i < max then max - i else 0
  {
    if LessThanOrInfinite(max, i) {
      var inner := EvaluateIteration(optimise, s, p, r, content);
      match inner {
        case NotMatched =>
        case Diverges => return Diverges;
        case Matched(r') =>
          if r'.end == p && max == 0 { return Diverges; }
          o := EvaluateRecursive(optimise, s, r'.end, r', max, content, tail, i + 1);
          if !o.NotMatched? { return; }
      }
    }
    o := Evaluate(optimise, s, p, false, r, tail);
  }
}
