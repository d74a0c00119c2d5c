/** The threaded counter numbers the placeholders of a text as reading its pieces in order does, and keeps in step with the
    parameter list. */
module SqlNumbering {
  import opened Bytes
  import opened Concatenation
  import opened SqlComponents
  import opened SqlRenderer

  lemma {:induction false} FreshConcat(a: seq<Piece>, b: seq<Piece>)
    ensures FreshTypes(a + b) == FreshTypes(a) + FreshTypes(b)
  {
    if a == [] {
      assert a + b == b;
    } else {
      assert (a + b)[1..] == a[1..] + b && (a + b)[0] == a[0];
      FreshConcat(a[1..], b);
    }
  }

  lemma {:induction false} SpellConcat(a: seq<Piece>, b: seq<Piece>, p: nat)
    ensures Spell(a + b, p) == Spell(a, p) + Spell(b, p + |FreshTypes(a)|)
    decreases |a|
  {
    if a == [] {
      assert a + b == b;
    } else {
      assert (a + b)[1..] == a[1..] + b;
      var q := if a[0].Fresh? then p + 1 else p;
      SpellConcat(a[1..], b, q);
      var first := match a[0] case Literal(text) => text case Fresh(_) => "$" + Digits(p) case Again(i) => "$" + Digits(i);
      var end := Spell(b, q + |FreshTypes(a[1..])|);
      assert Spell(a, p) == first + Spell(a[1..], q);
      Associates(first, Spell(a[1..], q), end);
    }
  }

  lemma {:induction false} LegalConcat(a: seq<Piece>, b: seq<Piece>, p: nat)
    ensures Legal(a + b, p) <==> Legal(a, p) && Legal(b, p + |FreshTypes(a)|)
    decreases |a|
  {
    if a == [] {
      assert a + b == b;
    } else {
      assert (a + b)[1..] == a[1..] + b;
      match a[0]
      case Literal(_) => LegalConcat(a[1..], b, p);
      case Fresh(_) => LegalConcat(a[1..], b, p + 1);
      case Again(_) => LegalConcat(a[1..], b, p);
    }
  }

  /** Going on with more pieces. */
  function Then(r: Rendered, pieces: seq<Piece>): Rendered {
    match r
    case None => None
    case Some((next, u)) => Expected(pieces, next, u)
  }

  lemma Appended(prev: string, a: string, b: string, both: string)
    requires both == a + b
    ensures prev + both == (prev + a) + b
  {
  }

  lemma ExpectedConcat(a: seq<Piece>, b: seq<Piece>, prev: string, p: nat)
    ensures Expected(a + b, prev, p) == Then(Expected(a, prev, p), b)
  {
    FreshConcat(a, b);
    LegalConcat(a, b, p);
    SpellConcat(a, b, p);
    Appended(prev, Spell(a, p), Spell(b, p + |FreshTypes(a)|), Spell(a + b, p));
  }

  lemma ExpectedLiteral(text: string, prev: string, p: nat)
    ensures Expected([Literal(text)], prev, p) == Some((prev + text, p))
  {
    var rest := [Literal(text)][1..];
    assert rest == [] && FreshTypes(rest) == [] && Legal(rest, p);
    assert Spell([Literal(text)], p) == text + "" == text;
  }

  lemma ExpectedNothing(prev: string, p: nat)
    ensures Expected([], prev, p) == Some((prev, p))
  {
    assert prev + "" == prev && FreshTypes([]) == [];
  }

  /** A literal, then pieces, then a literal. */
  lemma ExpectedBetween(before: string, pieces: seq<Piece>, after: string, prev: string, p: nat)
    ensures Expected([Literal(before)] + pieces + [Literal(after)], prev, p) ==
      Then(Expected(pieces, prev + before, p), [Literal(after)])
  {
    ExpectedConcat([Literal(before)] + pieces, [Literal(after)], prev, p);
    ExpectedConcat([Literal(before)], pieces, prev, p);
    ExpectedLiteral(before, prev, p);
  }

  lemma ThenLiteral(r: Rendered, text: string)
    ensures Then(r, [Literal(text)]) == if r.None? then None else Some((r.value.0 + text, r.value.1))
  {
    if r.Some? { ExpectedLiteral(text, r.value.0, r.value.1); }
  }

  lemma ThenConcat(r: Rendered, a: seq<Piece>, b: seq<Piece>)
    ensures Then(r, a + b) == Then(Then(r, a), b)
  {
    if r.Some? { ExpectedConcat(a, b, r.value.0, r.value.1); }
  }

  // ----- rendering is spelling the pieces -----

  lemma {:induction false} OperandIsSpelled(operand: Operand, of: string, prev: string, p: nat)
    ensures RenderOperand(operand, prev, p) == Expected(OperandPieces(operand, of), prev, p)
    decreases operand, 0
  {
    match operand
    case Parameter => SpellOne(Fresh(of), prev, p);
    case BoundParameter(i) => SpellOne(Again(i), prev, p);
    case OtherColumn(projection, name) => DottedIsSpelled(projection, name, prev, p);
  }

  /** A projection, a dot and a name. */
  lemma {:induction false} DottedIsSpelled(projection: Component, name: string, prev: string, p: nat)
    ensures Expected(Pieces(projection) + [Literal("." + name)], prev, p) ==
      match Render(projection, prev, p)
      case None => None
      case Some((next, u)) => Some((next + "." + name, u))
    decreases projection, 2
  {
    RenderIsSpelling(projection, prev, p);
    ExpectedConcat(Pieces(projection), [Literal("." + name)], prev, p);
    ThenLiteral(Expected(Pieces(projection), prev, p), "." + name);
    if Render(projection, prev, p).Some? {
      var next := Render(projection, prev, p).value.0;
      assert next + "." + name == next + ("." + name);
    }
  }

  lemma SpellOne(piece: Piece, prev: string, p: nat)
    requires !piece.Literal?
    ensures Expected([piece], prev, p) ==
      if piece.Fresh? then Some((prev + "$" + Digits(p), p + 1))
      else if piece.index < p then Some((prev + "$" + Digits(piece.index), p)) else None
  {
    var rest := [piece][1..];
    assert rest == [] && FreshTypes(rest) == [] && Legal(rest, p) && Legal(rest, p + 1);
    var n := if piece.Fresh? then p else piece.index;
    assert Spell([piece], p) == "$" + Digits(n) + "";
    assert prev + ("$" + Digits(n) + "") == prev + "$" + Digits(n);
  }

  /** Rendering appends the spelling of the component's pieces to the text and advances the counter by the number of new
      placeholders; it is not possible exactly when one of them refers to a parameter that is not earlier. */
  lemma {:induction false} RenderIsSpelling(c: Component, prev: string, p: nat)
    ensures Render(c, prev, p) == Expected(Pieces(c), prev, p)
    decreases c, 1
  {
    match c
    case Text(text) => ExpectedLiteral(text, prev, p);
    case Column(name, _) =>
      ExpectedLiteral(" " + name, prev, p);
      assert prev + " " + name == prev + (" " + name);
    case ColumnOf(projection, name, _) =>
      DottedIsSpelled(projection, name, prev, p);
    case Wrapped(before, inner, after) =>
      RenderIsSpelling(inner, prev + before, p);
      ExpectedBetween(before, Pieces(inner), after, prev, p);
      ThenLiteral(Expected(Pieces(inner), prev + before, p), after);
    case Listing(before, separator, parts, after, _) =>
      ListIsSpelled(separator, parts, true, prev + before, p);
      ExpectedBetween(before, ListPieces(separator, parts, true), after, prev, p);
      ThenLiteral(Expected(ListPieces(separator, parts, true), prev + before, p), after);
    case Joined(before, first, between, second, after) =>
      JoinedIsSpelled(before, first, between, second, after, prev, p);
    case Criterion(component, token, operand) =>
      RenderIsSpelling(component, prev, p);
      var r := Expected(Pieces(component), prev, p);
      ExpectedConcat(Pieces(component), [Literal(token)] + OperandPieces(operand, ValueType(component)), prev, p);
      ThenConcat(r, [Literal(token)], OperandPieces(operand, ValueType(component)));
      ThenLiteral(r, token);
      if r.Some? { OperandIsSpelled(operand, ValueType(component), r.value.0 + token, r.value.1); }
    case InsertInto(entity, assignments) => InsertIsSpelled(entity, assignments, prev, p);
    case OnConflict(query, conflicting, action) => ConflictIsSpelled(query, conflicting, action, prev, p);
    case DeleteFrom(entity, criteria) => DeleteIsSpelled(entity, criteria, prev, p);
  }

  lemma {:induction false} JoinedIsSpelled(before: string, first: Component, between: string, second: Component, after: string,
                                           prev: string, p: nat)
    ensures Render(Joined(before, first, between, second, after), prev, p) ==
      Expected(Pieces(Joined(before, first, between, second, after)), prev, p)
    decreases Joined(before, first, between, second, after), 0
  {
    var r := Render(first, prev + before, p);
    var more := [Literal(between)] + Pieces(second) + [Literal(after)];
    RenderIsSpelling(first, prev + before, p);
    ExpectedConcat([Literal(before)] + Pieces(first), more, prev, p);
    ExpectedConcat([Literal(before)], Pieces(first), prev, p);
    ExpectedLiteral(before, prev, p);
    if r.Some? {
      var (next, u) := r.value;
      RenderIsSpelling(second, next + between, u);
      ExpectedBetween(between, Pieces(second), after, next, u);
      ThenLiteral(Render(second, next + between, u), after);
    }
  }

  lemma {:induction false} InsertIsSpelled(entity: Component, assignments: Assignments, prev: string, p: nat)
    ensures Render(InsertInto(entity, assignments), prev, p) == Expected(Pieces(InsertInto(entity, assignments)), prev, p)
    decreases InsertInto(entity, assignments), 0
  {
    var start := "INSERT INTO ";
    var values := [Literal(") VALUES (")] + ValuePieces(assignments, true) + [Literal(")")];
    var columns := [Literal(" (")] + ColumnPieces(assignments, true);
    RenderIsSpelling(entity, prev + start, p);
    var r := Render(entity, prev + start, p);
    assert [Literal(start)] + Pieces(entity) + (columns + values) == ([Literal(start)] + Pieces(entity)) + (columns + values);
    ExpectedConcat([Literal(start)] + Pieces(entity), columns + values, prev, p);
    ExpectedConcat([Literal(start)], Pieces(entity), prev, p);
    ExpectedLiteral(start, prev, p);
    ThenConcat(r, columns, values);
    if r.Some? { ValuesAreSpelled(assignments, r.value.0, r.value.1); }
  }

  lemma {:induction false} ValuesAreSpelled(assignments: Assignments, next: string, u: nat)
    ensures var columns := [Literal(" (")] + ColumnPieces(assignments, true);
      var values := [Literal(") VALUES (")] + ValuePieces(assignments, true) + [Literal(")")];
      Then(Expected(columns, next, u), values) ==
        match RenderColumns(assignments, true, next + " (", u)
        case None => None
        case Some((next2, u2)) =>
          match RenderValues(assignments, true, next2 + ") VALUES (", u2)
          case None => None
          case Some((next3, u3)) => Some((next3 + ")", u3))
    decreases assignments, 2
  {
    ColumnsAreListed(assignments, true, next + " (", u);
    ExpectedConcat([Literal(" (")], ColumnPieces(assignments, true), next, u);
    ExpectedLiteral(" (", next, u);
    var r := RenderColumns(assignments, true, next + " (", u);
    if r.Some? {
      var (next2, u2) := r.value;
      ValuesAreListed(assignments, true, next2 + ") VALUES (", u2);
      ExpectedBetween(") VALUES (", ValuePieces(assignments, true), ")", next2, u2);
      ThenLiteral(RenderValues(assignments, true, next2 + ") VALUES (", u2), ")");
    }
  }

  lemma {:induction false} ConflictIsSpelled(query: Component, conflicting: Component, action: Component, prev: string, p: nat)
    ensures Render(OnConflict(query, conflicting, action), prev, p) == Expected(Pieces(OnConflict(query, conflicting, action)), prev, p)
    decreases OnConflict(query, conflicting, action), 0
  {
    RenderIsSpelling(query, prev, p);
    ExpectedConflict(Pieces(query), Pieces(conflicting), Pieces(action), prev, p);
    var r := Render(query, prev, p);
    if r.Some? {
      var (next, u) := r.value;
      RenderIsSpelling(conflicting, next + " ON CONFLICT (", u);
      var r2 := Render(conflicting, next + " ON CONFLICT (", u);
      if r2.Some? { RenderIsSpelling(action, r2.value.0 + ") DO ", r2.value.1); }
    }
  }

  /** What the pieces of a conflict clause expect, one part after the other. */
  lemma ExpectedConflict(query: seq<Piece>, conflicting: seq<Piece>, action: seq<Piece>, prev: string, p: nat)
    ensures Expected(query + ([Literal(" ON CONFLICT (")] + conflicting + ([Literal(") DO ")] + action)), prev, p) ==
      match Expected(query, prev, p)
      case None => None
      case Some((next, u)) =>
        match Expected(conflicting, next + " ON CONFLICT (", u)
        case None => None
        case Some((next2, u2)) => Expected(action, next2 + ") DO ", u2)
  {
    var middle, last := [Literal(" ON CONFLICT (")] + conflicting, [Literal(") DO ")] + action;
    var r := Expected(query, prev, p);
    ExpectedConcat(query, middle + last, prev, p);
    if r.Some? {
      var (next, u) := r.value;
      ExpectedConcat(middle, last, next, u);
      ExpectedAfter(" ON CONFLICT (", conflicting, next, u);
      var r2 := Expected(middle, next, u);
      if r2.Some? { ExpectedAfter(") DO ", action, r2.value.0, r2.value.1); }
    }
  }

  lemma {:induction false} DeleteIsSpelled(entity: Component, criteria: Component, prev: string, p: nat)
    ensures Render(DeleteFrom(entity, criteria), prev, p) == Expected(Pieces(DeleteFrom(entity, criteria)), prev, p)
    decreases DeleteFrom(entity, criteria), 0
  {
    var r := Render(entity, prev + "DELETE FROM", p);
    RenderIsSpelling(entity, prev + "DELETE FROM", p);
    ExpectedAfter("DELETE FROM", Pieces(entity), prev, p);
    ExpectedConcat([Literal("DELETE FROM")] + Pieces(entity), [Literal(" ")] + Pieces(criteria), prev, p);
    if r.Some? {
      RenderIsSpelling(criteria, r.value.0 + " ", r.value.1);
      ExpectedAfter(" ", Pieces(criteria), r.value.0, r.value.1);
    }
  }

  lemma ExpectedAfter(before: string, pieces: seq<Piece>, prev: string, p: nat)
    ensures Expected([Literal(before)] + pieces, prev, p) == Expected(pieces, prev + before, p)
  {
    ExpectedConcat([Literal(before)], pieces, prev, p);
    ExpectedLiteral(before, prev, p);
  }

  /** One element of a list: the separator, the element, the rest. */
  lemma ExpectedElement(separator: string, first: bool, element: seq<Piece>, rest: seq<Piece>, prev: string, p: nat)
    ensures Expected(Separation(separator, first) + element + rest, prev, p) ==
      Then(Expected(element, if first then prev else prev + separator, p), rest)
  {
    ExpectedConcat(Separation(separator, first) + element, rest, prev, p);
    ExpectedConcat(Separation(separator, first), element, prev, p);
    if first { assert [] + element == element; } else { ExpectedLiteral(separator, prev, p); }
  }

  lemma {:induction false} ListIsSpelled(separator: string, parts: Components, first: bool, prev: string, p: nat)
    ensures RenderList(separator, parts, first, prev, p) == Expected(ListPieces(separator, parts, first), prev, p)
    decreases parts, 1
  {
    if parts.Nothing? {
      ExpectedNothing(prev, p);
    } else {
      var start := if first then prev else prev + separator;
      var r := Render(parts.head, start, p);
      RenderIsSpelling(parts.head, start, p);
      ExpectedElement(separator, first, Pieces(parts.head), ListPieces(separator, parts.tail, false), prev, p);
      if r.Some? { ListIsSpelled(separator, parts.tail, false, r.value.0, r.value.1); }
    }
  }

  lemma {:induction false} ColumnsAreListed(assignments: Assignments, first: bool, prev: string, p: nat)
    ensures RenderColumns(assignments, first, prev, p) == Expected(ColumnPieces(assignments, first), prev, p)
    decreases assignments, 1
  {
    if assignments.NoMore? {
      ExpectedNothing(prev, p);
    } else {
      var start := if first then prev else prev + ", ";
      var r := Render(assignments.column, start, p);
      RenderIsSpelling(assignments.column, start, p);
      ExpectedElement(", ", first, Pieces(assignments.column), ColumnPieces(assignments.rest, false), prev, p);
      if r.Some? { ColumnsAreListed(assignments.rest, false, r.value.0, r.value.1); }
    }
  }

  lemma {:induction false} ValuesAreListed(assignments: Assignments, first: bool, prev: string, p: nat)
    ensures RenderValues(assignments, first, prev, p) == Expected(ValuePieces(assignments, first), prev, p)
    decreases assignments, 1
  {
    if assignments.NoMore? {
      ExpectedNothing(prev, p);
    } else {
      var start, of := if first then prev else prev + ", ", ValueType(assignments.column);
      var r := RenderOperand(assignments.value, start, p);
      OperandIsSpelled(assignments.value, of, start, p);
      ExpectedElement(", ", first, OperandPieces(assignments.value, of), ValuePieces(assignments.rest, false), prev, p);
      if r.Some? { ValuesAreListed(assignments.rest, false, r.value.0, r.value.1); }
    }
  }

  // ----- in step with the parameter list -----

  /** How many new placeholders stand where the source does not ask for parameter types: in what a column belongs to, in
      the conflict target, in the names of inserted columns, in the entity that is deleted from. */
  function Undeclared(c: Component): nat {
    match c
    case Text(_) => 0
    case Column(_, _) => 0
    case ColumnOf(projection, _, _) => |FreshTypes(Pieces(projection))|
    case Wrapped(_, inner, _) => Undeclared(inner)
    case Listing(_, _, parts, _, _) => UndeclaredIn(parts)
    case Joined(_, first, _, second, _) => Undeclared(first) + Undeclared(second)
    case Criterion(component, _, operand) => Undeclared(component) + UndeclaredBy(operand)
    case InsertInto(entity, assignments) => Undeclared(entity) + UndeclaredAssigned(assignments)
    case OnConflict(query, conflicting, action) => Undeclared(query) + |FreshTypes(Pieces(conflicting))| + Undeclared(action)
    case DeleteFrom(entity, criteria) => |FreshTypes(Pieces(entity))| + Undeclared(criteria)
  }

  function UndeclaredIn(parts: Components): nat {
    match parts
    case Nothing => 0
    case Also(head, tail) => Undeclared(head) + UndeclaredIn(tail)
  }

  function UndeclaredBy(operand: Operand): nat {
    if operand.OtherColumn? then |FreshTypes(Pieces(operand.projection))| else 0
  }

  function UndeclaredAssigned(assignments: Assignments): nat {
    match assignments
    case NoMore => 0
    case Assign(column, value, rest) => |FreshTypes(Pieces(column))| + UndeclaredBy(value) + UndeclaredAssigned(rest)
  }

  /** The new placeholders of the pieces and the parameter list differ by what is undeclared; without any, they agree. */
  ghost predicate InStep(placed: seq<string>, types: seq<string>, undeclared: nat) {
    |placed| == |types| + undeclared && (undeclared == 0 ==> placed == types)
  }

  lemma FreshLiteral(text: string)
    ensures FreshTypes([Literal(text)]) == []
  {
  }

  lemma FreshBetween(before: string, pieces: seq<Piece>, after: string)
    ensures FreshTypes([Literal(before)] + pieces + [Literal(after)]) == FreshTypes(pieces)
  {
    FreshConcat([Literal(before)] + pieces, [Literal(after)]);
    FreshConcat([Literal(before)], pieces);
    FreshLiteral(before);
    FreshLiteral(after);
  }

  lemma FreshAfter(before: string, pieces: seq<Piece>)
    ensures FreshTypes([Literal(before)] + pieces) == FreshTypes(pieces)
  {
    FreshConcat([Literal(before)], pieces);
    FreshLiteral(before);
  }

  lemma {:induction false} OperandInStep(operand: Operand, of: Component)
    ensures InStep(FreshTypes(OperandPieces(operand, ValueType(of))), OperandTypes(operand, of), UndeclaredBy(operand))
  {
    match operand
    case Parameter => assert [Fresh(ValueType(of))][1..] == [];
    case BoundParameter(i) => assert [Again(i)][1..] == [];
    case OtherColumn(projection, name) =>
      FreshConcat(Pieces(projection), [Literal("." + name)]);
      FreshLiteral("." + name);
  }

  /** For every component the counter advances by the length of the parameter list plus what is undeclared, and the types
      agree one by one when nothing is. */
  lemma {:induction false} CounterInStep(c: Component)
    ensures InStep(FreshTypes(Pieces(c)), ParameterTypes(c), Undeclared(c))
    decreases c, 1
  {
    match c
    case Text(text) => FreshLiteral(text);
    case Column(name, _) => FreshLiteral(" " + name);
    case ColumnOf(projection, name, _) =>
      FreshConcat(Pieces(projection), [Literal("." + name)]);
      FreshLiteral("." + name);
    case Wrapped(before, inner, after) =>
      CounterInStep(inner);
      FreshBetween(before, Pieces(inner), after);
    case Listing(before, separator, parts, after, _) =>
      ListInStep(separator, parts, true);
      FreshBetween(before, ListPieces(separator, parts, true), after);
    case Joined(before, first, between, second, after) => JoinedInStep(before, first, between, second, after);
    case Criterion(component, token, operand) => CriterionInStep(component, token, operand);
    case InsertInto(entity, assignments) => InsertInStep(entity, assignments);
    case OnConflict(query, conflicting, action) => ConflictInStep(query, conflicting, action);
    case DeleteFrom(entity, criteria) => DeleteInStep(entity, criteria);
  }

  lemma {:induction false} DeleteInStep(entity: Component, criteria: Component)
    ensures var c := DeleteFrom(entity, criteria);
      InStep(FreshTypes(Pieces(c)), ParameterTypes(c), Undeclared(c))
    decreases DeleteFrom(entity, criteria), 0
  {
    CounterInStep(criteria);
    FreshDelete(Pieces(entity), Pieces(criteria));
    InStepWithout(FreshTypes(Pieces(entity)), FreshTypes(Pieces(criteria)), ParameterTypes(criteria), Undeclared(criteria));
  }

  lemma {:induction false} JoinedInStep(before: string, first: Component, between: string, second: Component, after: string)
    ensures var c := Joined(before, first, between, second, after);
      InStep(FreshTypes(Pieces(c)), ParameterTypes(c), Undeclared(c))
    decreases Joined(before, first, between, second, after), 0
  {
    CounterInStep(first);
    CounterInStep(second);
    FreshJoined(before, Pieces(first), between, Pieces(second), after);
    InStepConcat(FreshTypes(Pieces(first)), ParameterTypes(first), Undeclared(first),
                 FreshTypes(Pieces(second)), ParameterTypes(second), Undeclared(second));
  }

  lemma {:induction false} CriterionInStep(component: Component, token: string, operand: Operand)
    ensures var c := Criterion(component, token, operand);
      InStep(FreshTypes(Pieces(c)), ParameterTypes(c), Undeclared(c))
    decreases Criterion(component, token, operand), 0
  {
    var pieces := OperandPieces(operand, ValueType(component));
    CounterInStep(component);
    OperandInStep(operand, component);
    FreshConcat(Pieces(component), [Literal(token)] + pieces);
    FreshAfter(token, pieces);
    InStepConcat(FreshTypes(Pieces(component)), ParameterTypes(component), Undeclared(component),
                 FreshTypes(pieces), OperandTypes(operand, component), UndeclaredBy(operand));
  }

  lemma {:induction false} InsertInStep(entity: Component, assignments: Assignments)
    ensures var c := InsertInto(entity, assignments);
      InStep(FreshTypes(Pieces(c)), ParameterTypes(c), Undeclared(c))
    decreases InsertInto(entity, assignments), 0
  {
    CounterInStep(entity);
    AssignedInStep(assignments, true);
    var columns, values := ColumnPieces(assignments, true), ValuePieces(assignments, true);
    FreshInsert(Pieces(entity), columns, values);
    InStepConcat(FreshTypes(Pieces(entity)), ParameterTypes(entity), Undeclared(entity),
                 FreshTypes(columns) + FreshTypes(values), AssignedTypes(assignments), UndeclaredAssigned(assignments));
  }

  lemma {:induction false} ConflictInStep(query: Component, conflicting: Component, action: Component)
    ensures var c := OnConflict(query, conflicting, action);
      InStep(FreshTypes(Pieces(c)), ParameterTypes(c), Undeclared(c))
    decreases OnConflict(query, conflicting, action), 0
  {
    var q, t, a := FreshTypes(Pieces(query)), FreshTypes(Pieces(conflicting)), FreshTypes(Pieces(action));
    CounterInStep(query);
    CounterInStep(action);
    assert FreshTypes(Pieces(OnConflict(query, conflicting, action))) == q + (t + a) by {
      FreshConflict(Pieces(query), Pieces(conflicting), Pieces(action));
    }
    ConflictParts(q, ParameterTypes(query), Undeclared(query), t, a, ParameterTypes(action), Undeclared(action));
  }

  lemma ConflictParts(placed1: seq<string>, types1: seq<string>, undeclared1: nat, target: seq<string>,
                      placed2: seq<string>, types2: seq<string>, undeclared2: nat)
    requires InStep(placed1, types1, undeclared1) && InStep(placed2, types2, undeclared2)
    ensures InStep(placed1 + (target + placed2), types1 + types2, undeclared1 + |target| + undeclared2)
  {
    InStepWithout(target, placed2, types2, undeclared2);
    InStepConcat(placed1, types1, undeclared1, target + placed2, types2, |target| + undeclared2);
  }

  lemma InStepConcat(placed1: seq<string>, types1: seq<string>, undeclared1: nat,
                     placed2: seq<string>, types2: seq<string>, undeclared2: nat)
    requires InStep(placed1, types1, undeclared1) && InStep(placed2, types2, undeclared2)
    ensures InStep(placed1 + placed2, types1 + types2, undeclared1 + undeclared2)
  {
  }

  /** Placeholders that no list declares. */
  lemma InStepWithout(placed: seq<string>, others: seq<string>, types: seq<string>, undeclared: nat)
    requires InStep(others, types, undeclared)
    ensures InStep(placed + others, types, |placed| + undeclared)
  {
    if placed == [] { assert placed + others == others; }
  }

  lemma FreshJoined(before: string, first: seq<Piece>, between: string, second: seq<Piece>, after: string)
    ensures FreshTypes([Literal(before)] + first + ([Literal(between)] + second + [Literal(after)]))
         == FreshTypes(first) + FreshTypes(second)
  {
    FreshConcat([Literal(before)] + first, [Literal(between)] + second + [Literal(after)]);
    FreshAfter(before, first);
    FreshBetween(between, second, after);
  }

  lemma FreshDelete(entity: seq<Piece>, criteria: seq<Piece>)
    ensures FreshTypes([Literal("DELETE FROM")] + entity + ([Literal(" ")] + criteria)) == FreshTypes(entity) + FreshTypes(criteria)
  {
    FreshConcat([Literal("DELETE FROM")] + entity, [Literal(" ")] + criteria);
    FreshAfter("DELETE FROM", entity);
    FreshAfter(" ", criteria);
  }

  lemma FreshInsert(entity: seq<Piece>, columns: seq<Piece>, values: seq<Piece>)
    ensures FreshTypes([Literal("INSERT INTO ")] + entity + ([Literal(" (")] + columns + ([Literal(") VALUES (")] + values + [Literal(")")])))
         == FreshTypes(entity) + (FreshTypes(columns) + FreshTypes(values))
  {
    FreshConcat([Literal("INSERT INTO ")] + entity, [Literal(" (")] + columns + ([Literal(") VALUES (")] + values + [Literal(")")]));
    FreshAfter("INSERT INTO ", entity);
    FreshConcat([Literal(" (")] + columns, [Literal(") VALUES (")] + values + [Literal(")")]);
    FreshAfter(" (", columns);
    FreshBetween(") VALUES (", values, ")");
  }

  lemma FreshConflict(query: seq<Piece>, conflicting: seq<Piece>, action: seq<Piece>)
    ensures FreshTypes(query + ([Literal(" ON CONFLICT (")] + conflicting + ([Literal(") DO ")] + action)))
         == FreshTypes(query) + (FreshTypes(conflicting) + FreshTypes(action))
  {
    FreshConcat(query, [Literal(" ON CONFLICT (")] + conflicting + ([Literal(") DO ")] + action));
    FreshConcat([Literal(" ON CONFLICT (")] + conflicting, [Literal(") DO ")] + action);
    FreshAfter(" ON CONFLICT (", conflicting);
    FreshAfter(") DO ", action);
  }

  lemma FreshElement(separator: string, first: bool, element: seq<Piece>, rest: seq<Piece>)
    ensures FreshTypes(Separation(separator, first) + element + rest) == FreshTypes(element) + FreshTypes(rest)
  {
    FreshConcat(Separation(separator, first) + element, rest);
    FreshConcat(Separation(separator, first), element);
    FreshLiteral(separator);
  }

  lemma {:induction false} ListInStep(separator: string, parts: Components, first: bool)
    ensures InStep(FreshTypes(ListPieces(separator, parts, first)), ListTypes(parts), UndeclaredIn(parts))
    decreases parts, 0
  {
    if parts.Also? {
      CounterInStep(parts.head);
      ListInStep(separator, parts.tail, false);
      FreshElement(separator, first, Pieces(parts.head), ListPieces(separator, parts.tail, false));
    }
  }

  lemma {:induction false} ColumnsAreUndeclared(assignments: Assignments, first: bool)
    ensures |FreshTypes(ColumnPieces(assignments, first))| <= UndeclaredAssigned(assignments)
  {
    if assignments.Assign? {
      ColumnsAreUndeclared(assignments.rest, false);
      FreshElement(", ", first, Pieces(assignments.column), ColumnPieces(assignments.rest, false));
    }
  }

  lemma CombineAssigned(column: seq<string>, columns: seq<string>, value: seq<string>, values: seq<string>,
                        valueTypes: seq<string>, types: seq<string>, a: nat, b: nat)
    requires InStep(value, valueTypes, a) && InStep(columns + values, types, b) && |columns| <= b
    ensures InStep((column + columns) + (value + values), valueTypes + types, |column| + a + b)
  {
    if |column| + a + b == 0 { assert column == [] && columns == [] && [] + values == values; }
  }

  lemma {:induction false} AssignedInStep(assignments: Assignments, first: bool)
    ensures InStep(FreshTypes(ColumnPieces(assignments, first)) + FreshTypes(ValuePieces(assignments, first)),
                   AssignedTypes(assignments), UndeclaredAssigned(assignments))
    decreases assignments, 0
  {
    if assignments.Assign? {
      var Assign(column, value, rest) := assignments;
      var of := ValueType(column);
      AssignedInStep(rest, false);
      ColumnsAreUndeclared(rest, false);
      OperandInStep(value, column);
      FreshElement(", ", first, Pieces(column), ColumnPieces(rest, false));
      FreshElement(", ", first, OperandPieces(value, of), ValuePieces(rest, false));
      CombineAssigned(FreshTypes(Pieces(column)), FreshTypes(ColumnPieces(rest, false)), FreshTypes(OperandPieces(value, of)),
                      FreshTypes(ValuePieces(rest, false)), OperandTypes(value, column), AssignedTypes(rest),
                      UndeclaredBy(value), UndeclaredAssigned(rest));
    }
  }
}
