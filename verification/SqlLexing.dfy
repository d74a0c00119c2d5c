/** Reading the placeholders back out of a rendered query. */
module SqlLexing {
  import opened Bytes
  import opened SqlComponents
  import opened SqlRenderer
  import opened SqlNumbering

  predicate IsDigit(c: char) {
    '0' <= c <= '9'
  }

  predicate AllDigits(s: string) {
    forall c | c in s :: IsDigit(c)
  }

  function Value(digits: string): nat
    requires AllDigits(digits)
    decreases |digits|
  {
    if digits == "" then 0
    else
      var last := digits[|digits| - 1];
      assert IsDigit(last);
      Value(digits[..|digits| - 1]) * 10 + (last as int - '0' as int)
  }

  function DigitCount(s: string): (n: nat)
    ensures n <= |s| && AllDigits(s[..n])
  {
    if s == "" || !IsDigit(s[0]) then 0
    else
      var n := DigitCount(s[1..]);
      assert s[..n + 1] == [s[0]] + s[1..][..n];
      n + 1
  }

  /** The numbers behind the dollar signs of a text. */
  function Lex(text: string): seq<nat>
    decreases |text|
  {
    if text == "" then []
    else if text[0] == '$' then
      var n := DigitCount(text[1..]);
      [Value(text[1..][..n])] + Lex(text[1..][n..])
    else Lex(text[1..])
  }

  // ----- numbers and their digits -----

  lemma {:induction false} ExplodePrepends(n: nat, digits: string)
    ensures Explode(n, digits) == Explode(n, "") + digits
    decreases n
  {
    if n > 0 {
      ExplodePrepends(n / 10, [Digit(n % 10)] + digits);
      ExplodePrepends(n / 10, [Digit(n % 10)] + "");
      var front := Explode(n / 10, "");
      assert front + ([Digit(n % 10)] + digits) == (front + ([Digit(n % 10)] + "")) + digits;
    }
  }

  lemma {:induction false} DigitsReadBack(n: nat)
    ensures AllDigits(Digits(n)) && Value(Digits(n)) == n
  {
    if n > 0 {
      DigitsReadBack(n / 10);
      ExplodePrepends(n / 10, [Digit(n % 10)] + "");
      var all := Digits(n);
      assert all == Digits(n / 10) + [Digit(n % 10)];
      assert all[..|all| - 1] == Digits(n / 10);
    }
  }

  lemma {:induction false} CountDigits(digits: string, rest: string)
    requires AllDigits(digits) && (rest == "" || !IsDigit(rest[0]))
    ensures DigitCount(digits + rest) == |digits|
  {
    if digits == "" {
      assert digits + rest == rest;
    } else {
      assert (digits + rest)[1..] == digits[1..] + rest;
      CountDigits(digits[1..], rest);
    }
  }

  lemma LexPlaceholder(n: nat, rest: string)
    requires rest == "" || !IsDigit(rest[0])
    ensures Lex("$" + Digits(n) + rest) == [n] + Lex(rest)
  {
    var text := "$" + Digits(n) + rest;
    DigitsReadBack(n);
    assert text[1..] == Digits(n) + rest;
    CountDigits(Digits(n), rest);
    assert text[1..][..|Digits(n)|] == Digits(n) && text[1..][|Digits(n)|..] == rest;
  }

  predicate Free(text: string) {
    '$' !in text
  }

  lemma {:induction false} LexLiteral(text: string, rest: string)
    requires Free(text)
    ensures Lex(text + rest) == Lex(rest)
  {
    if text == "" {
      assert text + rest == rest;
    } else {
      assert (text + rest)[1..] == text[1..] + rest;
      LexLiteral(text[1..], rest);
    }
  }

  // ----- pieces -----

  function Numbers(pieces: seq<Piece>, p: nat): seq<nat> {
    if pieces == [] then []
    else
      match pieces[0]
      case Literal(_) => Numbers(pieces[1..], p)
      case Fresh(_) => [p] + Numbers(pieces[1..], p + 1)
      case Again(i) => [i] + Numbers(pieces[1..], p)
  }

  predicate StartsWithDigit(pieces: seq<Piece>) {
    pieces != [] && match pieces[0]
      case Literal(text) => if text == "" then StartsWithDigit(pieces[1..]) else IsDigit(text[0])
      case _ => false
  }

  /** The literals are free of dollar signs, and no digit follows a placeholder directly. */
  predicate Separated(pieces: seq<Piece>) {
    pieces == [] || match pieces[0]
      case Literal(text) => Free(text) && Separated(pieces[1..])
      case _ => !StartsWithDigit(pieces[1..]) && Separated(pieces[1..])
  }

  lemma {:induction false} SpelledStart(pieces: seq<Piece>, p: nat)
    requires !StartsWithDigit(pieces)
    ensures Spell(pieces, p) == "" || !IsDigit(Spell(pieces, p)[0])
    decreases |pieces|
  {
    if pieces != [] && pieces[0].Literal? && pieces[0].text == "" {
      SpelledStart(pieces[1..], p);
      assert "" + Spell(pieces[1..], p) == Spell(pieces[1..], p);
    }
  }

  lemma {:induction false} LexSpelled(pieces: seq<Piece>, p: nat)
    requires Separated(pieces)
    ensures Lex(Spell(pieces, p)) == Numbers(pieces, p)
    decreases |pieces|
  {
    if pieces != [] {
      match pieces[0]
      case Literal(text) =>
        LexLiteral(text, Spell(pieces[1..], p));
        LexSpelled(pieces[1..], p);
      case Fresh(_) =>
        SpelledStart(pieces[1..], p + 1);
        LexPlaceholder(p, Spell(pieces[1..], p + 1));
        LexSpelled(pieces[1..], p + 1);
      case Again(i) =>
        SpelledStart(pieces[1..], p);
        LexPlaceholder(i, Spell(pieces[1..], p));
        LexSpelled(pieces[1..], p);
    }
  }

  /** No number is more than one larger than all before it: new ones come in the order 1, 2, 3 and so on. */
  predicate CountsUp(numbers: seq<nat>, largest: nat) {
    numbers == [] || (numbers[0] <= largest + 1 && CountsUp(numbers[1..], Larger(largest, numbers[0])))
  }

  function Larger(a: nat, b: nat): nat {
    if a < b then b else a
  }

  function Largest(numbers: seq<nat>, soFar: nat): nat {
    if numbers == [] then soFar else Largest(numbers[1..], Larger(soFar, numbers[0]))
  }

  lemma {:induction false} NumbersCountUp(pieces: seq<Piece>, p: nat)
    requires p >= 1 && Legal(pieces, p)
    ensures CountsUp(Numbers(pieces, p), p - 1)
    ensures Largest(Numbers(pieces, p), p - 1) == p - 1 + |FreshTypes(pieces)|
    decreases |pieces|
  {
    if pieces != [] {
      match pieces[0]
      case Literal(_) => NumbersCountUp(pieces[1..], p);
      case Fresh(_) =>
        NumbersCountUp(pieces[1..], p + 1);
        assert Numbers(pieces, p)[1..] == Numbers(pieces[1..], p + 1);
      case Again(i) =>
        NumbersCountUp(pieces[1..], p);
        assert Numbers(pieces, p)[1..] == Numbers(pieces[1..], p);
    }
  }

  // ----- components whose pieces are separated -----

  predicate Follows(text: string) {
    Free(text) && (text == "" || !IsDigit(text[0]))
  }

  /** The names and literals are free of dollar signs, and what comes between two components keeps digits apart. */
  predicate Neat(c: Component) {
    match c
    case Text(text) => Free(text)
    case Column(name, _) => Free(name)
    case ColumnOf(projection, name, _) => Neat(projection) && Free(name)
    case Wrapped(before, inner, after) => Free(before) && Neat(inner) && Follows(after)
    case Listing(before, separator, parts, after, _) =>
      Free(before) && Follows(separator) && separator != "" && NeatParts(parts) && Follows(after)
    case Joined(before, first, between, second, after) =>
      && Free(before) && Neat(first) && Follows(between) && Neat(second) && Follows(after)
      && (between == "" ==> !StartsWithDigit(Pieces(second)))
    case Criterion(component, token, operand) => Neat(component) && Follows(token) && token != "" && NeatOperand(operand)
    case InsertInto(entity, assignments) => Neat(entity) && NeatAssignments(assignments)
    case OnConflict(query, conflicting, action) => Neat(query) && Neat(conflicting) && Neat(action)
    case DeleteFrom(entity, criteria) => Neat(entity) && Neat(criteria)
  }

  predicate NeatParts(parts: Components) {
    match parts
    case Nothing => true
    case Also(head, tail) => Neat(head) && NeatParts(tail)
  }

  predicate NeatOperand(operand: Operand) {
    match operand
    case OtherColumn(projection, name) => Neat(projection) && Free(name)
    case _ => true
  }

  predicate NeatAssignments(assignments: Assignments) {
    match assignments
    case NoMore => true
    case Assign(column, value, rest) => Neat(column) && NeatOperand(value) && NeatAssignments(rest)
  }

  lemma {:induction false} StartOfConcat(a: seq<Piece>, b: seq<Piece>)
    requires !StartsWithDigit(a) && !StartsWithDigit(b)
    ensures !StartsWithDigit(a + b)
  {
    if a == [] {
      assert a + b == b;
    } else {
      assert (a + b)[1..] == a[1..] + b;
      if a[0].Literal? && a[0].text == "" { StartOfConcat(a[1..], b); }
    }
  }

  lemma {:induction false} SeparatedConcat(a: seq<Piece>, b: seq<Piece>)
    requires Separated(a) && Separated(b) && !StartsWithDigit(b)
    ensures Separated(a + b)
  {
    if a == [] {
      assert a + b == b;
    } else {
      assert (a + b)[1..] == a[1..] + b;
      SeparatedConcat(a[1..], b);
      if !a[0].Literal? { StartOfConcat(a[1..], b); }
    }
  }

  lemma SeparatedAfter(before: string, pieces: seq<Piece>)
    requires Free(before) && Separated(pieces)
    ensures Separated([Literal(before)] + pieces)
    ensures Follows(before) && (before != "" || !StartsWithDigit(pieces)) ==> !StartsWithDigit([Literal(before)] + pieces)
  {
    assert ([Literal(before)] + pieces)[1..] == pieces;
  }

  lemma SeparatedLast(text: string)
    requires Follows(text)
    ensures Separated([Literal(text)]) && !StartsWithDigit([Literal(text)])
  {
    var rest := [Literal(text)][1..];
    assert rest == [] && Separated(rest) && !StartsWithDigit(rest);
  }

  lemma SeparatedBetween(before: string, pieces: seq<Piece>, after: string)
    requires Free(before) && Separated(pieces) && Follows(after)
    ensures Separated([Literal(before)] + pieces + [Literal(after)])
    ensures Follows(before) && (before != "" || !StartsWithDigit(pieces)) ==>
      !StartsWithDigit([Literal(before)] + pieces + [Literal(after)])
  {
    SeparatedAfter(before, pieces);
    SeparatedLast(after);
    SeparatedConcat([Literal(before)] + pieces, [Literal(after)]);
    if !StartsWithDigit([Literal(before)] + pieces) { StartOfConcat([Literal(before)] + pieces, [Literal(after)]); }
  }

  lemma {:induction false} NeatIsSeparated(c: Component)
    requires Neat(c)
    ensures Separated(Pieces(c))
    decreases c, 0
  {
    match c
    case Text(text) => assert [Literal(text)][1..] == [];
    case Column(name, _) => assert [Literal(" " + name)][1..] == [];
    case ColumnOf(projection, name, _) => NeatDotted(projection, name);
    case Wrapped(before, inner, after) =>
      NeatIsSeparated(inner);
      SeparatedBetween(before, Pieces(inner), after);
    case Listing(before, separator, parts, after, _) =>
      NeatListIsSeparated(separator, parts, true);
      SeparatedBetween(before, ListPieces(separator, parts, true), after);
    case Joined(before, first, between, second, after) =>
      NeatIsSeparated(first);
      NeatIsSeparated(second);
      SeparatedAfter(before, Pieces(first));
      SeparatedBetween(between, Pieces(second), after);
      SeparatedConcat([Literal(before)] + Pieces(first), [Literal(between)] + Pieces(second) + [Literal(after)]);
    case Criterion(component, token, operand) =>
      NeatIsSeparated(component);
      NeatOperandIsSeparated(operand, ValueType(component));
      SeparatedAfter(token, OperandPieces(operand, ValueType(component)));
      SeparatedConcat(Pieces(component), [Literal(token)] + OperandPieces(operand, ValueType(component)));
    case InsertInto(entity, assignments) => NeatInsertIsSeparated(entity, assignments);
    case OnConflict(query, conflicting, action) =>
      NeatIsSeparated(query);
      NeatIsSeparated(conflicting);
      NeatIsSeparated(action);
      SeparatedConflict(Pieces(query), Pieces(conflicting), Pieces(action));
    case DeleteFrom(entity, criteria) =>
      NeatIsSeparated(entity);
      NeatIsSeparated(criteria);
      SeparatedAfter("DELETE FROM", Pieces(entity));
      SeparatedAfter(" ", Pieces(criteria));
      SeparatedConcat([Literal("DELETE FROM")] + Pieces(entity), [Literal(" ")] + Pieces(criteria));
  }

  lemma SeparatedConflict(query: seq<Piece>, conflicting: seq<Piece>, action: seq<Piece>)
    requires Separated(query) && Separated(conflicting) && Separated(action)
    ensures Separated(query + ([Literal(" ON CONFLICT (")] + conflicting + ([Literal(") DO ")] + action)))
  {
    SeparatedAfter(" ON CONFLICT (", conflicting);
    SeparatedAfter(") DO ", action);
    SeparatedConcat([Literal(" ON CONFLICT (")] + conflicting, [Literal(") DO ")] + action);
    StartOfConcat([Literal(" ON CONFLICT (")] + conflicting, [Literal(") DO ")] + action);
    SeparatedConcat(query, [Literal(" ON CONFLICT (")] + conflicting + ([Literal(") DO ")] + action));
  }

  lemma {:induction false} NeatDotted(projection: Component, name: string)
    requires Neat(projection) && Free(name)
    ensures Separated(Pieces(projection) + [Literal("." + name)])
    decreases projection, 1
  {
    NeatIsSeparated(projection);
    SeparatedLast("." + name);
    SeparatedConcat(Pieces(projection), [Literal("." + name)]);
  }

  lemma {:induction false} NeatOperandIsSeparated(operand: Operand, of: string)
    requires NeatOperand(operand)
    ensures Separated(OperandPieces(operand, of))
    decreases operand, 0
  {
    match operand
    case Parameter => assert [Fresh(of)][1..] == [];
    case BoundParameter(i) => assert [Again(i)][1..] == [];
    case OtherColumn(projection, name) => NeatDotted(projection, name);
  }

  lemma {:induction false} NeatInsertIsSeparated(entity: Component, assignments: Assignments)
    requires Neat(entity) && NeatAssignments(assignments)
    ensures Separated(Pieces(InsertInto(entity, assignments)))
    decreases InsertInto(entity, assignments), -1
  {
    var columns, values := ColumnPieces(assignments, true), ValuePieces(assignments, true);
    NeatIsSeparated(entity);
    NeatAssignmentsAreSeparated(assignments, true);
    SeparatedAfter("INSERT INTO ", Pieces(entity));
    SeparatedAfter(" (", columns);
    SeparatedBetween(") VALUES (", values, ")");
    var last := [Literal(") VALUES (")] + values + [Literal(")")];
    SeparatedConcat([Literal(" (")] + columns, last);
    StartOfConcat([Literal(" (")] + columns, last);
    SeparatedConcat([Literal("INSERT INTO ")] + Pieces(entity), [Literal(" (")] + columns + last);
  }

  lemma SeparatedElement(separator: string, first: bool, element: seq<Piece>, rest: seq<Piece>)
    requires Follows(separator) && separator != "" && Separated(element) && Separated(rest) && !StartsWithDigit(rest)
    ensures Separated(Separation(separator, first) + element + rest)
    ensures !first ==> !StartsWithDigit(Separation(separator, first) + element + rest)
  {
    if first {
      assert [] + element == element;
    } else {
      SeparatedAfter(separator, element);
      StartOfConcat([Literal(separator)] + element, rest);
    }
    SeparatedConcat(Separation(separator, first) + element, rest);
  }

  lemma {:induction false} NeatListIsSeparated(separator: string, parts: Components, first: bool)
    requires Follows(separator) && separator != "" && NeatParts(parts)
    ensures Separated(ListPieces(separator, parts, first))
    ensures !first ==> !StartsWithDigit(ListPieces(separator, parts, first))
    decreases parts, 0
  {
    if parts.Also? {
      NeatIsSeparated(parts.head);
      NeatListIsSeparated(separator, parts.tail, false);
      SeparatedElement(separator, first, Pieces(parts.head), ListPieces(separator, parts.tail, false));
    }
  }

  lemma {:induction false} NeatAssignmentsAreSeparated(assignments: Assignments, first: bool)
    requires NeatAssignments(assignments)
    ensures Separated(ColumnPieces(assignments, first)) && Separated(ValuePieces(assignments, first))
    ensures !first ==> !StartsWithDigit(ColumnPieces(assignments, first)) && !StartsWithDigit(ValuePieces(assignments, first))
    decreases assignments, 0
  {
    if assignments.Assign? {
      var of := ValueType(assignments.column);
      NeatIsSeparated(assignments.column);
      NeatOperandIsSeparated(assignments.value, of);
      NeatAssignmentsAreSeparated(assignments.rest, false);
      SeparatedElement(", ", first, Pieces(assignments.column), ColumnPieces(assignments.rest, false));
      SeparatedElement(", ", first, OperandPieces(assignments.value, of), ValuePieces(assignments.rest, false));
    }
  }

  // ----- the result -----

  /** The placeholders read back from the text are those of the pieces; new ones come in the order 1, 2, 3 and so on. */
  lemma TextReadsBack(query: Component, text: string)
    requires ToText(query) == Some(text) && Neat(query)
    ensures Lex(text) == Numbers(Pieces(query), 1) && CountsUp(Lex(text), 0)
    ensures Largest(Lex(text), 0) == |FreshTypes(Pieces(query))|
  {
    var pieces := Pieces(query);
    RenderIsSpelling(query, "", 1);
    NeatIsSeparated(query);
    assert "" + Spell(pieces, 1) == Spell(pieces, 1);
    LexSpelled(pieces, 1);
    NumbersCountUp(pieces, 1);
  }

  /** In the text of a query the placeholders are introduced in the order 1, 2, 3 and so on, as many as there are
      parameters; any other number is an earlier one or, for a bound parameter of index zero, missing altogether.  The k-th
      new placeholder belongs to the component whose type is the k-th parameter type. */
  lemma PlaceholdersMatchParameters(query: Component, text: string)
    requires ToText(query) == Some(text) && Neat(query) && Undeclared(query) == 0
    ensures CountsUp(Lex(text), 0) && Largest(Lex(text), 0) == |ParameterTypes(query)|
    ensures Lex(text) == Numbers(Pieces(query), 1) && FreshTypes(Pieces(query)) == ParameterTypes(query)
  {
    TextReadsBack(query, text);
    CounterInStep(query);
  }

  /** With an undeclared placeholder the text asks for more parameters than the list has. */
  lemma UndeclaredIsOutOfStep(query: Component, text: string)
    requires ToText(query) == Some(text) && Neat(query)
    ensures Largest(Lex(text), 0) == |ParameterTypes(query)| <==> Undeclared(query) == 0
  {
    TextReadsBack(query, text);
    CounterInStep(query);
  }

  /** A bound parameter compiles exactly if it is earlier; index zero does too, and leaves a dollar sign without number. */
  lemma BoundParameterIsEarlier(i: nat, prev: string, p: nat)
    requires p >= 1
    ensures RenderOperand(BoundParameter(i), prev, p).Some? <==> i < p
    ensures Lex("$" + Digits(i) + "") == [i] && (Digits(i) == "" <==> i == 0)
  {
    LexPlaceholder(i, "");
    assert Lex("") == [];
    DigitsReadBack(i);
  }
}
