/** The classes of the mapper, what they render, and that names free of dollar signs are enough for the placeholders of a
    query to be its parameters. */
module SqlMapper {
  import opened Bytes
  import opened SqlComponents
  import opened SqlRenderer
  import opened SqlNumbering
  import opened SqlLexing

  /** Classes that render a text. */
  datatype Literally =
    | Entity(schema: string, name: string)
    | Constant(v: nat)
    | Raw(keyword: string)
    | Reference(alias: string)
    | OnConstraint(name: string)
    | DoNothing
  {
    function Words(): string {
      match this
      case Entity(schema, name) => schema + "." + name
      case Constant(v) => Digits(v)
      case Raw(keyword) => keyword
      case Reference(alias) => alias
      case OnConstraint(name) => "ON CONSTRAINT " + name
      case DoNothing => "NOTHING"
    }

    predicate FreeNames() {
      match this
      case Entity(schema, name) => Free(schema) && Free(name)
      case Constant(_) => true
      case Raw(keyword) => Free(keyword)
      case Reference(alias) => Free(alias)
      case OnConstraint(name) => Free(name)
      case DoNothing => true
    }
  }

  /** Classes that render something before and after a component. */
  datatype Clause =
    | Alias(alias: string)
    | Selector(token: string)
    | PartitionBy
    | Where
    | Not
    | IsNull
    | OrderClause(ascending: bool)
    | Limit
    | Offset
    | Cte(alias: string, recursive: bool)
  {
    function Before(): string {
      match this
      case Alias(_) => ""
      case Selector(token) => token + " "
      case PartitionBy => "PARTITION BY "
      case Where => "WHERE "
      case Not => "!("
      case IsNull => "("
      case OrderClause(_) => ""
      case Limit => "LIMIT "
      case Offset => "OFFSET "
      case Cte(alias, recursive) => (if recursive then "RECURSIVE " else "") + alias + " AS ("
    }

    function After(): string {
      match this
      case Alias(alias) => " AS " + alias
      case Not => ")"
      case IsNull => " IS NULL)"
      case OrderClause(ascending) => if ascending then " ASC" else " DESC"
      case Cte(_, _) => ")"
      case _ => ""
    }

    predicate FreeNames() {
      match this
      case Alias(alias) => Free(alias)
      case Selector(token) => Free(token)
      case Cte(alias, _) => Free(alias)
      case _ => true
    }
  }

  /** Classes that render a list. */
  datatype Listed =
    | Function(valueType: string, name: string)
    | Projection
    | Conjunction
    | Disjunction
    | OrderBy
    | GroupBy
    | Set
  {
    function Before(): string {
      match this
      case Function(_, name) => name + "("
      case Projection => ""
      case Conjunction => "("
      case Disjunction => "("
      case OrderBy => "ORDER BY "
      case GroupBy => "GROUP BY "
      case Set => " SET "
    }

    function Separator(): string {
      match this
      case Conjunction => " AND "
      case Disjunction => " OR "
      case _ => ", "
    }

    function After(): string {
      if Function? || Conjunction? || Disjunction? then ")" else ""
    }

    predicate FreeNames() {
      Function? ==> Free(name)
    }
  }

  /** Classes that render two components. */
  datatype Pairing = Over | Update | UpdateWhere | Returning {
    function Before(): string {
      if Update? then "UPDATE " else ""
    }

    function Between(): string {
      match this
      case Over => " OVER ("
      case Update => " "
      case UpdateWhere => " WHERE "
      case Returning => " RETURNING "
    }

    function After(): string {
      if Over? then ")" else ""
    }
  }

  datatype Comparison = Equals | GreaterThan | LessThan {
    function Token(): string {
      match this
      case Equals => " = "
      case GreaterThan => " > "
      case LessThan => " < "
    }
  }

  datatype Given = NewParameter | EarlierParameter(index: nat) | ValueOf(projection: Mapped, name: string)

  datatype Mapped =
    | Plainly(words: Literally)
    | Named(name: string, valueType: string)
    | NamedIn(projection: Mapped, name: string, valueType: string)
    | Around(clause: Clause, inner: Mapped)
    | ListOf(kind: Listed, parts: Several)
    | Compare(comparison: Comparison, left: Mapped, right: Given)
    | Pair(pairing: Pairing, first: Mapped, second: Mapped)
    | Select(selection: Mapped, from: Mapped, clauses: Several)
    | With(expressions: Several, query: Mapped)
    | Insert(into: Mapped, stored: Stored)
    | Conflict(insertion: Mapped, target: Mapped, action: Mapped)
    | UpdateFromExcluded(excluded: seq<(string, string)>)
    | Delete(from: Mapped, criteria: Mapped)

  datatype Several = NoMapped | MoreMapped(first: Mapped, rest: Several)

  datatype Stored = NothingStored | Store(column: Mapped, value: Given, rest: Stored)

  // ----- what they render -----

  function OperandOf(value: Given): Operand {
    match value
    case NewParameter => Parameter
    case EarlierParameter(i) => BoundParameter(i)
    case ValueOf(projection, name) => OtherColumn(Shape(projection), name)
  }

  function Shape(m: Mapped): Component {
    match m
    case Plainly(words) => Text(words.Words())
    case Named(name, valueType) => Column(name, valueType)
    case NamedIn(projection, name, valueType) => ColumnOf(Shape(projection), name, valueType)
    case Around(clause, inner) => Wrapped(clause.Before(), Shape(inner), clause.After())
    case ListOf(kind, parts) =>
      Listing(kind.Before(), kind.Separator(), Shapes(parts), kind.After(), if kind.Function? then kind.valueType else "")
    case Compare(comparison, left, right) => Criterion(Shape(left), comparison.Token(), OperandOf(right))
    case Pair(pairing, first, second) =>
      Joined(pairing.Before(), Shape(first), pairing.Between(), Shape(second), pairing.After())
    case Select(selection, from, clauses) => Joined("SELECT ", Shape(selection), " FROM ", FromWith(Shape(from), Shapes(clauses)), "")
    case With(expressions, query) => Joined("WITH ", Listing("", ", ", Shapes(expressions), "", ""), " ", Shape(query), "")
    case Insert(into, stored) => InsertInto(Shape(into), Assigned(stored))
    case Conflict(insertion, target, action) => OnConflict(Shape(insertion), Shape(target), Shape(action))
    case UpdateFromExcluded(excluded) => Listing("UPDATE SET ", ", ", FromExcluded(excluded), "", "")
    case Delete(from, criteria) => DeleteFrom(Shape(from), Shape(criteria))
  }

  function Shapes(several: Several): Components {
    match several
    case NoMapped => Nothing
    case MoreMapped(first, rest) => Also(Shape(first), Shapes(rest))
  }

  function Assigned(stored: Stored): Assignments {
    match stored
    case NothingStored => NoMore
    case Store(column, value, rest) => Assign(Shape(column), OperandOf(value), Assigned(rest))
  }

  /** An entity and the clauses behind it: no space follows when there are none. */
  function FromWith(from: Component, clauses: Components): Component {
    Joined("", from, if clauses.Nothing? then "" else " ", Listing("", " ", clauses, "", ""), "")
  }

  function FromExcluded(columns: seq<(string, string)>): Components {
    if columns == [] then Nothing
    else
      var (name, valueType) := columns[0];
      Also(Criterion(Column(name, valueType), " = ", OtherColumn(Text("EXCLUDED"), name)), FromExcluded(columns[1..]))
  }

  // ----- names free of dollar signs -----

  predicate FreeValue(value: Given) {
    match value
    case ValueOf(projection, name) => FreeNames(projection) && Free(name)
    case _ => true
  }

  /** No name that occurs has a dollar sign. */
  predicate FreeNames(m: Mapped) {
    match m
    case Plainly(words) => words.FreeNames()
    case Named(name, _) => Free(name)
    case NamedIn(projection, name, _) => FreeNames(projection) && Free(name)
    case Around(clause, inner) => clause.FreeNames() && FreeNames(inner)
    case ListOf(kind, parts) => kind.FreeNames() && AllFree(parts)
    case Compare(_, left, right) => FreeNames(left) && FreeValue(right)
    case Pair(_, first, second) => FreeNames(first) && FreeNames(second)
    case Select(selection, from, clauses) => FreeNames(selection) && FreeNames(from) && AllFree(clauses)
    case With(expressions, query) => AllFree(expressions) && FreeNames(query)
    case Insert(into, stored) => FreeNames(into) && FreeStored(stored)
    case Conflict(insertion, target, action) => FreeNames(insertion) && FreeNames(target) && FreeNames(action)
    case UpdateFromExcluded(excluded) => forall c | c in excluded :: Free(c.0)
    case Delete(from, criteria) => FreeNames(from) && FreeNames(criteria)
  }

  predicate AllFree(several: Several) {
    match several
    case NoMapped => true
    case MoreMapped(first, rest) => FreeNames(first) && AllFree(rest)
  }

  predicate FreeStored(stored: Stored) {
    match stored
    case NothingStored => true
    case Store(column, value, rest) => FreeNames(column) && FreeValue(value) && FreeStored(rest)
  }

  // ----- the literal texts -----

  lemma DigitsAreFree(n: nat)
    ensures Free(Digits(n))
  {
    DigitsReadBack(n);
    forall c | c in Digits(n)
      ensures c != '$'
    {
      assert IsDigit(c);
    }
  }

  lemma WordsAreFree(words: Literally)
    requires words.FreeNames()
    ensures Free(words.Words())
  {
    if words.Constant? { DigitsAreFree(words.v); }
  }

  lemma ClauseKeepsApart(clause: Clause)
    requires clause.FreeNames()
    ensures Free(clause.Before()) && Follows(clause.After())
  {
    if clause.Alias? { assert clause.After()[0] == ' '; }
  }

  lemma ListKeepsApart(kind: Listed)
    requires kind.FreeNames()
    ensures Free(kind.Before()) && Follows(kind.Separator()) && kind.Separator() != "" && Follows(kind.After())
  {
  }

  lemma PairingKeepsApart(pairing: Pairing)
    ensures Free(pairing.Before()) && Follows(pairing.Between()) && pairing.Between() != "" && Follows(pairing.After())
  {
  }

  lemma TokenKeepsApart(comparison: Comparison)
    ensures Follows(comparison.Token()) && comparison.Token() != ""
  {
  }

  lemma FromWithIsNeat(from: Component, clauses: Components)
    requires Neat(from) && NeatParts(clauses)
    ensures Neat(FromWith(from, clauses))
  {
    var tail := Listing("", " ", clauses, "", "");
    assert Neat(tail);
    if clauses.Nothing? {
      assert Pieces(tail) == [Literal(""), Literal("")] && Pieces(tail)[1..] == [Literal("")] && [Literal("")][1..] == [];
      assert !StartsWithDigit(Pieces(tail)[1..]);
    }
  }

  lemma SelectIsNeat(selection: Component, from: Component, clauses: Components)
    requires Neat(selection) && Neat(from) && NeatParts(clauses)
    ensures Neat(Joined("SELECT ", selection, " FROM ", FromWith(from, clauses), ""))
  {
    FromWithIsNeat(from, clauses);
  }

  lemma WithIsNeat(expressions: Components, query: Component)
    requires NeatParts(expressions) && Neat(query)
    ensures Neat(Joined("WITH ", Listing("", ", ", expressions, "", ""), " ", query, ""))
  {
    assert Neat(Listing("", ", ", expressions, "", ""));
  }

  lemma {:induction false} FromExcludedIsNeat(columns: seq<(string, string)>)
    requires forall c | c in columns :: Free(c.0)
    ensures NeatParts(FromExcluded(columns))
  {
    if columns != [] {
      var (name, valueType) := columns[0];
      assert columns[0] in columns && Free(name) && Free("EXCLUDED");
      assert Neat(Column(name, valueType)) && Neat(Text("EXCLUDED")) && NeatOperand(OtherColumn(Text("EXCLUDED"), name));
      FromExcludedIsNeat(columns[1..]);
    }
  }

  // ----- they are enough -----

  /** Names free of dollar signs make a neat component of every class. */
  lemma {:induction false} FreeIsNeat(m: Mapped)
    requires FreeNames(m)
    ensures Neat(Shape(m))
    decreases m, 1
  {
    match m
    case Plainly(words) => WordsAreFree(words);
    case Named(_, _) =>
    case NamedIn(projection, _, _) => FreeIsNeat(projection);
    case Around(clause, inner) =>
      ClauseKeepsApart(clause);
      FreeIsNeat(inner);
    case ListOf(kind, parts) =>
      ListKeepsApart(kind);
      FreeAreNeat(parts);
    case Compare(comparison, left, right) =>
      TokenKeepsApart(comparison);
      FreeIsNeat(left);
      FreeValueIsNeat(right);
    case Pair(pairing, first, second) =>
      PairingKeepsApart(pairing);
      FreeIsNeat(first);
      FreeIsNeat(second);
    case _ => FreeStatementIsNeat(m);
  }

  lemma {:induction false} FreeStatementIsNeat(m: Mapped)
    requires FreeNames(m)
    requires m.Select? || m.With? || m.Insert? || m.Conflict? || m.UpdateFromExcluded? || m.Delete?
    ensures Neat(Shape(m))
    decreases m, 0
  {
    match m
    case Select(selection, from, clauses) =>
      FreeIsNeat(selection);
      FreeIsNeat(from);
      FreeAreNeat(clauses);
      SelectIsNeat(Shape(selection), Shape(from), Shapes(clauses));
    case With(expressions, query) =>
      FreeAreNeat(expressions);
      FreeIsNeat(query);
      WithIsNeat(Shapes(expressions), Shape(query));
    case Insert(into, stored) =>
      FreeIsNeat(into);
      FreeStoredIsNeat(stored);
    case Conflict(insertion, target, action) =>
      FreeIsNeat(insertion);
      FreeIsNeat(target);
      FreeIsNeat(action);
    case UpdateFromExcluded(excluded) => FromExcludedIsNeat(excluded);
    case Delete(from, criteria) =>
      FreeIsNeat(from);
      FreeIsNeat(criteria);
  }

  lemma {:induction false} FreeAreNeat(several: Several)
    requires AllFree(several)
    ensures NeatParts(Shapes(several))
    decreases several, 0
  {
    if several.MoreMapped? {
      FreeIsNeat(several.first);
      FreeAreNeat(several.rest);
    }
  }

  lemma {:induction false} FreeValueIsNeat(value: Given)
    requires FreeValue(value)
    ensures NeatOperand(OperandOf(value))
    decreases value, 0
  {
    if value.ValueOf? { FreeIsNeat(value.projection); }
  }

  lemma {:induction false} FreeStoredIsNeat(stored: Stored)
    requires FreeStored(stored)
    ensures NeatAssignments(Assigned(stored))
    decreases stored, 0
  {
    if stored.Store? {
      FreeIsNeat(stored.column);
      FreeValueIsNeat(stored.value);
      FreeStoredIsNeat(stored.rest);
    }
  }

  /** So for every query of the mapper's classes whose names are free of dollar signs: the placeholders in its text are
      introduced in the order 1, 2, 3 and so on; they are as many as the parameters exactly if no placeholder stands where
      the list leaves it out, and then the k-th belongs to the component whose type is the k-th parameter type. */
  lemma QueriesMatchParameters(query: Mapped, text: string)
    requires FreeNames(query) && ToText(Shape(query)) == Some(text)
    ensures Lex(text) == Numbers(Pieces(Shape(query)), 1) && CountsUp(Lex(text), 0)
    ensures Largest(Lex(text), 0) == |ParameterTypes(Shape(query))| <==> Undeclared(Shape(query)) == 0
    ensures Undeclared(Shape(query)) == 0 ==> FreshTypes(Pieces(Shape(query))) == ParameterTypes(Shape(query))
  {
    var c := Shape(query);
    FreeIsNeat(query);
    TextReadsBack(c, text);
    UndeclaredIsOutOfStep(c, text);
    if Undeclared(c) == 0 { PlaceholdersMatchParameters(c, text); }
  }
}
