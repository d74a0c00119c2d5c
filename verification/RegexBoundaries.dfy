/** Where the evaluator's promises stop, each with the input that shows it. */
module RegexBoundaries {
  import opened RegexSyntax
  import opened RegexEvaluator
  import opened RegexLanguage
  import opened RegexSoundness
  import opened FirstCoverage
  import opened FirstSets
  import opened PossessiveOptimisation
  import opened OptimiserInvisible
  import opened RepeatFusion

  function Letter(c: Char): Nodes {
    Cons(One(Character(c)), Nil)
  }

  // ----- merging into a sequence swaps two possessive repeats -----

  /** When the swap is harmless: neither repeat asks for anything, or both do with the same room above. */
  predicate Swappable(minA: nat, maxA: nat, minB: nat, maxB: nat) {
    || (minA == 0 && minB == 0)
    || (minA > 0 && minB > 0 && maxA == 0 && maxB == 0)
    || (minA > 0 && minB > 0 && maxA > 0 && maxB > 0 && maxA - minA == maxB - minB)
  }

  lemma RunIteration(optimise: bool, m: Node, v: Char, n: nat, p: nat, r: Results)
    requires p <= n && TakesOne(m) && Takes(m, v)
    ensures Iteration(optimise, Run(v, n), p, r, Cons(m, Nil)) == if p < n then Matched(r.(end := p + 1)) else NotMatched
  {
    var cycle := Cons(EndCycleMark, Nil);
    assert Cycle(Cons(m, Nil)) == Cons(m, cycle) by { assert Append(Nil, cycle) == cycle; }
    if p < n { assert Eval(optimise, Run(v, n), p + 1, false, r, cycle) == Matched(r.(end := p + 1)); }
  }

  lemma {:induction false} RunExhaust(optimise: bool, m: Node, v: Char, n: nat, p: nat, r: Results, min: nat, max: nat)
    requires p <= n && (max == 0 || n <= max) && Bounds(min, max) && TakesOne(m) && Takes(m, v)
    ensures var l := Exhaust(optimise, Run(v, n), p, r, Cons(m, Nil), min, max, p);
      if min <= n then l.At? && l.position == n else l == Stuck
    decreases n - p
  {
    RunIteration(optimise, m, v, n, p, r);
    if p < n { RunExhaust(optimise, m, v, n, p + 1, r.(end := p + 1), min, max); }
  }

  /** What a possessive repeat makes of the whole subject. */
  lemma WholeExhaust(optimise: bool, min: nat, max: nat, content: Nodes, s: Subject)
    requires Bounds(min, max)
    ensures Match(optimise, Repeat(Possessive, min, max, content), s) ==
      After(optimise, s, 0, false, Exhaust(optimise, s, 0, Results(0, 0, map[]), content, min, max, 0), ENDING)
  {
    OnePossessive(optimise, s, 0, false, Results(0, 0, map[]), min, max, content, ENDING);
    assert Match(optimise, Repeat(Possessive, min, max, content), s)
        == Eval(optimise, s, 0, false, Results(0, 0, map[]), Cons(Repeat(Possessive, min, max, content), ENDING));
  }

  lemma {:induction false} RunMatch(optimise: bool, m: Node, v: Char, n: nat, min: nat, max: nat)
    requires Bounds(min, max) && (max == 0 || n <= max) && TakesOne(m) && Takes(m, v)
    ensures Match(optimise, Repeat(Possessive, min, max, Cons(m, Nil)), Run(v, n)).Matched? <==> min <= n
  {
    var s, started := Run(v, n), Results(0, 0, map[]);
    RunExhaust(optimise, m, v, n, 0, started, min, max);
    WholeExhaust(optimise, min, max, Cons(m, Nil), s);
    if min <= n { EndAccepted(optimise, s, n, false, Exhaust(optimise, s, 0, started, Cons(m, Nil), min, max, 0).results); }
  }

  lemma RejectMatchesNothing(optimise: bool, content: Nodes, s: Subject)
    ensures Match(optimise, Sequence(Cons(Reject, content)), s).NotMatched?
  {
    var started := Results(0, 0, map[]);
    Rejects(optimise, s, 0, false, started, content, ENDING);
    assert Match(optimise, Sequence(Cons(Reject, content)), s)
        == Eval(optimise, s, 0, false, started, Cons(Sequence(Cons(Reject, content)), ENDING));
  }

  /** The least number of characters a merged repeat accepts, or none. */
  function Least(minA: nat, maxA: nat, minB: nat): (bool, nat) {
    if maxA == 0 then (minB == 0, minA)
    else (true, if minB == 0 then minA else maxA + minB)
  }

  lemma {:induction false} CombinedAccepts(optimise: bool, m: Node, v: Char, minA: nat, maxA: nat, minB: nat, maxB: nat, n: nat)
    requires Bounds(minA, maxA) && Bounds(minB, maxB) && (CombineMax(maxA, maxB) == 0 || n <= CombineMax(maxA, maxB))
    requires TakesOne(m) && Takes(m, v)
    ensures Match(optimise, CombineRepeat(Possessive, minA, maxA, minB, maxB, Cons(m, Nil)), Run(v, n)).Matched?
       <==> Least(minA, maxA, minB).0 && Least(minA, maxA, minB).1 <= n
  {
    if maxA == 0 && minB > 0 {
      RejectMatchesNothing(optimise, Cons(m, Nil), Run(v, n));
    } else {
      RunMatch(optimise, m, v, n, Least(minA, maxA, minB).1, CombineMax(maxA, maxB));
    }
  }

  /** A repeat of what no character is comes down to whether it has to be there. */
  lemma NothingCombined(optimise: bool, m: Node, minA: nat, maxA: nat, minB: nat, maxB: nat, s: Subject)
    requires Bounds(minA, maxA) && Bounds(minB, maxB) && TakesOne(m) && forall v: Char :: !Takes(m, v)
    ensures Match(optimise, CombineRepeat(Possessive, minA, maxA, minB, maxB, Cons(m, Nil)), s) ==
      if minA == 0 && minB == 0 then Eval(optimise, s, 0, false, Results(0, 0, map[]), ENDING) else NotMatched
  {
    var started, content := Results(0, 0, map[]), Cons(m, Nil);
    if maxA == 0 && minB > 0 {
      RejectMatchesNothing(optimise, content, s);
    } else {
      var least, most := Least(minA, maxA, minB).1, CombineMax(maxA, maxB);
      WholeExhaust(optimise, least, most, content, s);
      NoIterationOf(optimise, m, s, started);
      assert Exhaust(optimise, s, 0, started, content, least, most, 0) == if least == 0 then At(0, started) else Stuck;
    }
  }

  lemma NoIterationOf(optimise: bool, m: Node, s: Subject, r: Results)
    requires TakesOne(m) && forall v: Char :: !Takes(m, v)
    ensures Iteration(optimise, s, 0, r, Cons(m, Nil)).NotMatched?
  {
    var cycle := Cons(EndCycleMark, Nil);
    assert Cycle(Cons(m, Nil)) == Cons(m, cycle) by { assert Append(Nil, cycle) == cycle; }
    if s != [] { assert !Takes(m, s[0]); }
  }

  /** Two possessive repeats of one character, merged in the wrong order, accept the same subjects exactly when they are
      swappable or there is no such character. */
  lemma {:induction false} SwappedFusion(optimise: bool, m: Node, minA: nat, maxA: nat, minB: nat, maxB: nat)
    requires Bounds(minA, maxA) && Bounds(minB, maxB) && TakesOne(m)
    ensures
      (forall s: Subject ::
        Match(optimise, CombineRepeat(Possessive, minB, maxB, minA, maxA, Cons(m, Nil)), s).Matched? <==>
        Match(optimise, CombineRepeat(Possessive, minA, maxA, minB, maxB, Cons(m, Nil)), s).Matched?)
      <==> Swappable(minA, maxA, minB, maxB) || forall v: Char :: !Takes(m, v)
  {
    var swapped := CombineRepeat(Possessive, minB, maxB, minA, maxA, Cons(m, Nil));
    var ordered := CombineRepeat(Possessive, minA, maxA, minB, maxB, Cons(m, Nil));
    if Swappable(minA, maxA, minB, maxB) {
      assert swapped == ordered;
    } else if v: Char :| Takes(m, v) {
      SwappedDiffers(optimise, m, v, minA, maxA, minB, maxB);
    } else {
      forall s: Subject
        ensures Match(optimise, swapped, s) == Match(optimise, ordered, s)
      {
        NothingCombined(optimise, m, minA, maxA, minB, maxB, s);
        NothingCombined(optimise, m, minB, maxB, minA, maxA, s);
      }
    }
  }

  lemma {:induction false} SwappedDiffers(optimise: bool, m: Node, v: Char, minA: nat, maxA: nat, minB: nat, maxB: nat)
    requires Bounds(minA, maxA) && Bounds(minB, maxB) && TakesOne(m) && Takes(m, v) && !Swappable(minA, maxA, minB, maxB)
    ensures exists s: Subject ::
      Match(optimise, CombineRepeat(Possessive, minB, maxB, minA, maxA, Cons(m, Nil)), s).Matched? !=
      Match(optimise, CombineRepeat(Possessive, minA, maxA, minB, maxB, Cons(m, Nil)), s).Matched?
  {
    var (x, a) := Least(minA, maxA, minB);
    var (y, b) := Least(minB, maxB, minA);
    var least := if x && (!y || a < b) then a else b;
    var s := Run(v, least);
    CombinedAccepts(optimise, m, v, minA, maxA, minB, maxB, least);
    CombinedAccepts(optimise, m, v, minB, maxB, minA, maxA, least);
    assert Match(optimise, CombineRepeat(Possessive, minB, maxB, minA, maxA, Cons(m, Nil)), s).Matched? !=
           Match(optimise, CombineRepeat(Possessive, minA, maxA, minB, maxB, Cons(m, Nil)), s).Matched?;
  }

  // ----- an iteration is never revised -----

  const A: Char := 97
  const B: Char := 98
  const C: Char := 99

  /** `(?:a|ab)*c` covers "abc", but the first iteration commits to "a". */
  lemma IterationsAreFinal(optimise: bool)
    ensures var choice := Select(Cons(One(Character(A)), Cons(Sequence(Cons(One(Character(A)), Letter(B))), Nil)));
      var re := Sequence(Cons(Repeat(Greedy, 0, 0, Cons(choice, Nil)), Letter(C)));
      Covers(re, [A, B, C], 0, 3) && Match(optimise, re, [A, B, C]).NotMatched?
  {
    var choice := Select(Cons(One(Character(A)), Cons(Sequence(Cons(One(Character(A)), Letter(B))), Nil)));
    var content := Cons(choice, Nil);
    var star := Repeat(Greedy, 0, 0, content);
    var s := [A, B, C];
    FinalCovers(choice, s);
    FinalMisses(optimise, choice, s);
  }

  lemma FinalCovers(choice: Node, s: Subject)
    requires choice == Select(Cons(One(Character(A)), Cons(Sequence(Cons(One(Character(A)), Letter(B))), Nil)))
    requires s == [A, B, C]
    ensures Covers(Sequence(Cons(Repeat(Greedy, 0, 0, Cons(choice, Nil)), Letter(C))), s, 0, 3)
  {
    var both := Cons(One(Character(A)), Letter(B));
    assert CoversAll(Nil, s, 2, 2) && CoversAll(Nil, s, 3, 3);
    assert Covers(One(Character(B)), s, 1, 2) && CoversAll(Letter(B), s, 1, 2);
    assert Covers(One(Character(A)), s, 0, 1) && CoversAll(both, s, 0, 2);
    assert CoversSome(Cons(Sequence(both), Nil), s, 0, 2);
    assert Covers(choice, s, 0, 2) && CoversAll(Cons(choice, Nil), s, 0, 2);
    assert CoversTimes(Cons(choice, Nil), 0, s, 2, 2);
    assert CoversTimes(Cons(choice, Nil), 1, s, 0, 2);
    assert Covers(Repeat(Greedy, 0, 0, Cons(choice, Nil)), s, 0, 2);
    assert Covers(One(Character(C)), s, 2, 3) && CoversAll(Letter(C), s, 2, 3);
  }

  lemma FinalMisses(optimise: bool, choice: Node, s: Subject)
    requires choice == Select(Cons(One(Character(A)), Cons(Sequence(Cons(One(Character(A)), Letter(B))), Nil)))
    requires s == [A, B, C]
    ensures Match(optimise, Sequence(Cons(Repeat(Greedy, 0, 0, Cons(choice, Nil)), Letter(C))), s).NotMatched?
  {
    var re := Sequence(Cons(Repeat(Greedy, 0, 0, Cons(choice, Nil)), Letter(C)));
    FinalIsOptimisable(choice);
    OptimiserIsInvisible(re, s);
    var r := Results(0, 0, map[]);
    var content := Cons(choice, Nil);
    var rest := Cons(Sequence(Letter(C)), ENDING);
    var split := Cons(Repeat(Greedy, 0, 0, content), rest);
    assert Match(false, re, s) == Eval(false, s, 0, false, r, Cons(re, ENDING));
    assert Eval(false, s, 0, false, r, Cons(re, ENDING)) == Eval(false, s, 0, false, r, split);
    assert Eval(false, s, 0, false, r, split) == EvalRepeat(false, s, 0, false, r, Greedy, 0, 0, content, rest);
    assert Iterate(false, s, 0, r, content, 0) == At(0, r);
    assert EvalRepeat(false, s, 0, false, r, Greedy, 0, 0, content, rest) == GreedyRest(false, s, 0, r, 0, content, rest, 0);
    // the first iteration takes "a"
    var r1 := r.(end := 1);
    ChoiceTakesA(choice, s, r);
    // from "b" there is no second one, and "c" is not next
    ChoiceFails(choice, s, r1);
    NoC(s, 1, r1);
    NoC(s, 0, r);
    assert GreedyRest(false, s, 1, r1, 0, content, rest, 1).NotMatched?;
  }

  lemma FinalIsOptimisable(choice: Node)
    requires choice == Select(Cons(One(Character(A)), Cons(Sequence(Cons(One(Character(A)), Letter(B))), Nil)))
    ensures Optimisable(Sequence(Cons(Repeat(Greedy, 0, 0, Cons(choice, Nil)), Letter(C))))
  {
    var both := Cons(One(Character(A)), Letter(B));
    var options := Cons(One(Character(A)), Cons(Sequence(both), Nil));
    assert AllPlain(both) && WellNumbered(both) && ExpressibleNodes(both) && GreedyFree(both);
    assert AllPlain(options) && WellNumbered(options) && ExpressibleNodes(options) && GreedyFree(options);
    var star := Repeat(Greedy, 0, 0, Cons(choice, Nil));
    assert GreedyFree(Cons(choice, Nil)) && ExpressibleNodes(Cons(choice, Nil));
    assert Plain(star) && WellNumberedNode(star) && ExpressibleNode(star) && TameNode(star);
    var parts := Cons(star, Letter(C));
    assert AllPlain(parts) && WellNumbered(parts) && ExpressibleNodes(parts) && Tame(parts);
  }

  lemma ChoiceTakesA(choice: Node, s: Subject, r: Results)
    requires choice == Select(Cons(One(Character(A)), Cons(Sequence(Cons(One(Character(A)), Letter(B))), Nil)))
    requires s == [A, B, C]
    ensures Iteration(false, s, 0, r, Cons(choice, Nil)) == Matched(r.(end := 1))
  {
    var cycle := Cons(EndCycleMark, Nil);
    assert Cycle(Cons(choice, Nil)) == Cons(choice, cycle) by { assert Append(Nil, cycle) == cycle; }
    assert Eval(false, s, 1, false, r, cycle) == Matched(r.(end := 1));
    assert Eval(false, s, 0, true, r, Cons(One(Character(A)), cycle)) == Matched(r.(end := 1));
  }

  lemma ChoiceFails(choice: Node, s: Subject, r: Results)
    requires choice == Select(Cons(One(Character(A)), Cons(Sequence(Cons(One(Character(A)), Letter(B))), Nil)))
    requires s == [A, B, C]
    ensures Iteration(false, s, 1, r, Cons(choice, Nil)).NotMatched?
  {
    var cycle := Cons(EndCycleMark, Nil);
    var both := Cons(One(Character(A)), Letter(B));
    assert Cycle(Cons(choice, Nil)) == Cons(choice, cycle) by { assert Append(Nil, cycle) == cycle; }
    assert Eval(false, s, 1, true, r, Cons(One(Character(A)), cycle)).NotMatched?;
    assert Eval(false, s, 1, true, r, Split(both, cycle)).NotMatched?;
    assert Eval(false, s, 1, true, r, Cons(Sequence(both), cycle)).NotMatched?;
    assert Eval(false, s, 1, true, r, Cons(Select(Nil), cycle)).NotMatched?;
    assert Eval(false, s, 1, true, r, Cons(Select(Cons(Sequence(both), Nil)), cycle)).NotMatched?;
  }

  lemma NoC(s: Subject, p: nat, r: Results)
    requires s == [A, B, C] && p < 2
    ensures Eval(false, s, p, false, r, Cons(Sequence(Letter(C)), ENDING)).NotMatched?
  {
    assert Eval(false, s, p, false, r, Split(Letter(C), ENDING)).NotMatched?;
  }

  // ----- a greedy repeat inside a repeat -----

  const STAR := Repeat(Greedy, 0, 0, Letter(A))
  const STAR_OF_STAR := Repeat(Greedy, 0, 0, Cons(STAR, Nil))

  /** `(?:a*)*` on the empty subject: the optimiser makes it match; without it the evaluation never ends. */
  lemma OptimiserChangesNested()
    ensures Match(true, STAR_OF_STAR, []).Matched? && Match(false, STAR_OF_STAR, []).Diverges?
  {
    NestedWith(Results(0, 0, map[]));
    NestedWithout(Results(0, 0, map[]));
    forall o: bool
      ensures Match(o, STAR_OF_STAR, []) == Eval(o, [], 0, false, Results(0, 0, map[]), Cons(STAR_OF_STAR, ENDING))
    {
    }
  }

  lemma InnerIterations(o: bool, s: Subject, r: Results)
    requires s == []
    ensures Iteration(o, s, 0, r, Letter(A)).NotMatched?
    ensures Iteration(o, s, 0, r, Cons(STAR, Nil))
         == EvalRepeat(o, s, 0, true, r, Greedy, 0, 0, Letter(A), Cons(EndCycleMark, Nil))
  {
    var cycle := Cons(EndCycleMark, Nil);
    assert Append(Nil, cycle) == cycle;
    assert Cycle(Cons(STAR, Nil)) == Cons(STAR, cycle) && Cycle(Letter(A)) == Cons(One(Character(A)), cycle);
  }

  /** The inner repeat clears the flag that forbids an empty iteration. */
  lemma NestedWithout(r: Results)
    ensures Eval(false, [], 0, false, r, Cons(STAR_OF_STAR, ENDING)).Diverges?
  {
    var s: Subject := [];
    var cycle := Cons(EndCycleMark, Nil);
    InnerIterations(false, s, r);
    assert Iterate(false, s, 0, r, Letter(A), 0) == At(0, r) == Iterate(false, s, 0, r, Cons(STAR, Nil), 0);
    assert GreedyRest(false, s, 0, r, 0, Letter(A), cycle, 0) == Eval(false, s, 0, false, r, cycle) == Matched(r.(end := 0));
    assert GreedyRest(false, s, 0, r, 0, Cons(STAR, Nil), ENDING, 0).Diverges?;
    assert EvalRepeat(false, s, 0, false, r, Greedy, 0, 0, Cons(STAR, Nil), ENDING).Diverges?;
  }

  /** The possessive repeat leaves it set. */
  lemma NestedWith(r: Results)
    ensures Eval(true, [], 0, false, r, Cons(STAR_OF_STAR, ENDING)).Matched?
  {
    var s: Subject := [];
    var cycle := Cons(EndCycleMark, Nil);
    InnerIterations(true, s, r);
    assert First([], cycle) == [] && First([], ENDING) == [];
    assert Exhaust(true, s, 0, r, Letter(A), 0, 0, 0) == At(0, r);
    assert EvalRepeat(true, s, 0, true, r, Possessive, 0, 0, Letter(A), cycle)
        == Eval(true, s, 0, true, r, cycle) == NotMatched;
    assert Exhaust(true, s, 0, r, Cons(STAR, Nil), 0, 0, 0) == At(0, r);
    EndAccepted(true, s, 0, false, r);
    assert EvalRepeat(true, s, 0, false, r, Possessive, 0, 0, Cons(STAR, Nil), ENDING).Matched?;
    assert EvalRepeat(true, s, 0, false, r, Greedy, 0, 0, Cons(STAR, Nil), ENDING).Matched?;
  }
}
