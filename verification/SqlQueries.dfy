/** What queries of the kinds that the repository has look like, for any table and any columns, and which types their
    parameters have: those that are written in the columns. */
module SqlQueries {
  import opened Bytes
  import opened Concatenation
  import opened SqlComponents
  import opened SqlRenderer
  import opened SqlMapper
  import opened SqlNumbering
  import SqlLexing

  // ----- the types of parameters -----

  /** Can a parameter be compared with it or stored in it? */
  predicate HasType(m: Mapped) {
    match m
    case Named(_, _) => true
    case NamedIn(_, _, _) => true
    case ListOf(kind, _) => kind.Function?
    case Around(clause, inner) => (clause.Alias? || clause.Selector?) && HasType(inner)
    case Pair(pairing, first, _) => pairing.Over? && HasType(first)
    case _ => false
  }

  /** A column has the type that is written in it, a function its declared result; the rest is around one of them. */
  function TypeWritten(m: Mapped): string
    requires HasType(m)
  {
    match m
    case Named(_, written) => written
    case NamedIn(_, _, written) => written
    case ListOf(kind, _) => kind.valueType
    case Around(_, inner) => TypeWritten(inner)
    case Pair(_, first, _) => TypeWritten(first)
  }

  /** What the new parameters of the parts that declare any are compared with or stored in, in order. */
  function Asked(m: Mapped): seq<Mapped> {
    match m
    case Around(_, inner) => Asked(inner)
    case ListOf(_, parts) => AskedIn(parts)
    case Compare(_, left, right) => Asked(left) + if right.NewParameter? then [left] else []
    case Pair(_, first, second) => Asked(first) + Asked(second)
    case Select(selection, from, clauses) => Asked(selection) + (Asked(from) + AskedIn(clauses))
    case With(expressions, query) => AskedIn(expressions) + Asked(query)
    case Insert(into, stored) => Asked(into) + AskedStored(stored)
    case Conflict(insertion, _, action) => Asked(insertion) + Asked(action)
    case Delete(_, criteria) => Asked(criteria)
    case _ => []
  }

  function AskedIn(several: Several): seq<Mapped> {
    match several
    case NoMapped => []
    case MoreMapped(first, rest) => Asked(first) + AskedIn(rest)
  }

  function AskedStored(stored: Stored): seq<Mapped> {
    match stored
    case NothingStored => []
    case Store(column, value, rest) => (if value.NewParameter? then [column] else []) + AskedStored(rest)
  }

  /** The types of these, if all have one. */
  ghost predicate TypesOf(types: seq<string>, asked: seq<Mapped>) {
    |types| == |asked| && forall k | 0 <= k < |asked| :: HasType(asked[k]) ==> types[k] == TypeWritten(asked[k])
  }

  lemma TypesConcat(a: seq<string>, b: seq<string>, x: seq<Mapped>, y: seq<Mapped>)
    requires TypesOf(a, x) && TypesOf(b, y)
    ensures TypesOf(a + b, x + y)
  {
  }

  lemma {:induction false} TypeIsWritten(m: Mapped)
    requires HasType(m)
    ensures ValueType(Shape(m)) == TypeWritten(m)
  {
    match m
    case Around(_, inner) => TypeIsWritten(inner);
    case Pair(_, first, _) => TypeIsWritten(first);
    case _ =>
  }

  lemma NewIsTyped(m: Mapped, value: Given)
    ensures TypesOf(OperandTypes(OperandOf(value), Shape(m)), if value.NewParameter? then [m] else [])
  {
    if HasType(m) { TypeIsWritten(m); }
  }

  /** The parameter list of any query of the mapper's classes: one type for each new parameter that is declared, and that is
      the type written where it is compared or stored. */
  lemma {:induction false} TypesAreWritten(m: Mapped)
    ensures TypesOf(ParameterTypes(Shape(m)), Asked(m))
    decreases m, 1
  {
    match m
    case Around(_, inner) => TypesAreWritten(inner);
    case ListOf(_, parts) => ListTypesAreWritten(parts);
    case Compare(_, left, right) =>
      TypesAreWritten(left);
      NewIsTyped(left, right);
      TypesConcat(ParameterTypes(Shape(left)), OperandTypes(OperandOf(right), Shape(left)), Asked(left),
                  if right.NewParameter? then [left] else []);
    case Pair(_, first, second) =>
      TypesAreWritten(first);
      TypesAreWritten(second);
      TypesConcat(ParameterTypes(Shape(first)), ParameterTypes(Shape(second)), Asked(first), Asked(second));
    case Conflict(insertion, _, action) =>
      TypesAreWritten(insertion);
      TypesAreWritten(action);
      TypesConcat(ParameterTypes(Shape(insertion)), ParameterTypes(Shape(action)), Asked(insertion), Asked(action));
    case Delete(_, criteria) => TypesAreWritten(criteria);
    case UpdateFromExcluded(excluded) => ExcludedHaveNone(excluded);
    case Select(_, _, _) => QueryTypesAreWritten(m);
    case With(_, _) => QueryTypesAreWritten(m);
    case Insert(_, _) => QueryTypesAreWritten(m);
    case _ =>
  }

  lemma {:induction false} QueryTypesAreWritten(m: Mapped)
    requires m.Select? || m.With? || m.Insert?
    ensures TypesOf(ParameterTypes(Shape(m)), Asked(m))
    decreases m, 0
  {
    match m
    case Select(selection, from, clauses) =>
      TypesAreWritten(selection);
      TypesAreWritten(from);
      ListTypesAreWritten(clauses);
      var a, b, c := ParameterTypes(Shape(selection)), ParameterTypes(Shape(from)), ListTypes(Shapes(clauses));
      assert ParameterTypes(FromWith(Shape(from), Shapes(clauses))) == b + c;
      TypesConcat(b, c, Asked(from), AskedIn(clauses));
      TypesConcat(a, b + c, Asked(selection), Asked(from) + AskedIn(clauses));
    case With(expressions, query) =>
      ListTypesAreWritten(expressions);
      TypesAreWritten(query);
      TypesConcat(ListTypes(Shapes(expressions)), ParameterTypes(Shape(query)), AskedIn(expressions), Asked(query));
    case Insert(into, stored) =>
      TypesAreWritten(into);
      StoredTypesAreWritten(stored);
      TypesConcat(ParameterTypes(Shape(into)), AssignedTypes(Assigned(stored)), Asked(into), AskedStored(stored));
  }

  lemma {:induction false} ListTypesAreWritten(several: Several)
    ensures TypesOf(ListTypes(Shapes(several)), AskedIn(several))
    decreases several, 0
  {
    if several.MoreMapped? {
      TypesAreWritten(several.first);
      ListTypesAreWritten(several.rest);
      TypesConcat(ParameterTypes(Shape(several.first)), ListTypes(Shapes(several.rest)), Asked(several.first), AskedIn(several.rest));
    }
  }

  lemma {:induction false} StoredTypesAreWritten(stored: Stored)
    ensures TypesOf(AssignedTypes(Assigned(stored)), AskedStored(stored))
    decreases stored, 0
  {
    if stored.Store? {
      NewIsTyped(stored.column, stored.value);
      StoredTypesAreWritten(stored.rest);
      TypesConcat(OperandTypes(OperandOf(stored.value), Shape(stored.column)), AssignedTypes(Assigned(stored.rest)),
                  if stored.value.NewParameter? then [stored.column] else [], AskedStored(stored.rest));
    }
  }

  lemma {:induction false} ExcludedHaveNone(columns: seq<(string, string)>)
    ensures ListTypes(FromExcluded(columns)) == []
  {
    if columns != [] {
      var (name, valueType) := columns[0];
      var first := Criterion(Column(name, valueType), " = ", OtherColumn(Text("EXCLUDED"), name));
      assert FromExcluded(columns) == Also(first, FromExcluded(columns[1..])) && ParameterTypes(first) == [];
      ExcludedHaveNone(columns[1..]);
    }
  }

  /** The k-th new placeholder of a query stands for a value of the type written in the k-th column that is asked for. */
  lemma PlaceholdersHaveWrittenTypes(query: Mapped, text: string)
    requires FreeNames(query) && ToText(Shape(query)) == Some(text) && Undeclared(Shape(query)) == 0
    ensures SqlLexing.Largest(SqlLexing.Lex(text), 0) == |Asked(query)|
    ensures TypesOf(FreshTypes(Pieces(Shape(query))), Asked(query))
  {
    QueriesMatchParameters(query, text);
    TypesAreWritten(query);
  }

  // ----- the text -----

  /** How many new placeholders there are. */
  function Placed(m: Mapped): nat {
    match m
    case Plainly(_) => 0
    case Named(_, _) => 0
    case NamedIn(projection, _, _) => Placed(projection)
    case Around(_, inner) => Placed(inner)
    case ListOf(_, parts) => PlacedIn(parts)
    case Compare(_, left, right) => Placed(left) + PlacedBy(right)
    case Pair(_, first, second) => Placed(first) + Placed(second)
    case Select(selection, from, clauses) => Placed(selection) + (Placed(from) + PlacedIn(clauses))
    case With(expressions, query) => PlacedIn(expressions) + Placed(query)
    case Insert(into, stored) => Placed(into) + (PlacedInColumns(stored) + PlacedInValues(stored))
    case Conflict(insertion, target, action) => Placed(insertion) + (Placed(target) + Placed(action))
    case UpdateFromExcluded(_) => 0
    case Delete(from, criteria) => Placed(from) + Placed(criteria)
  }

  function PlacedBy(value: Given): nat {
    match value
    case NewParameter => 1
    case EarlierParameter(_) => 0
    case ValueOf(projection, _) => Placed(projection)
  }

  function PlacedIn(several: Several): nat {
    match several
    case NoMapped => 0
    case MoreMapped(first, rest) => Placed(first) + PlacedIn(rest)
  }

  function PlacedInColumns(stored: Stored): nat {
    match stored
    case NothingStored => 0
    case Store(column, _, rest) => Placed(column) + PlacedInColumns(rest)
  }

  function PlacedInValues(stored: Stored): nat {
    match stored
    case NothingStored => 0
    case Store(_, value, rest) => PlacedBy(value) + PlacedInValues(rest)
  }

  function WordsText(words: Literally): string {
    match words
    case Entity(schema, name) => schema + "." + name
    case Constant(v) => Digits(v)
    case Raw(keyword) => keyword
    case Reference(alias) => alias
    case OnConstraint(name) => "ON CONSTRAINT " + name
    case DoNothing => "NOTHING"
  }

  function ClauseText(clause: Clause, t: string): string {
    match clause
    case Alias(alias) => t + " AS " + alias
    case Selector(token) => token + " " + t
    case PartitionBy => "PARTITION BY " + t
    case Where => "WHERE " + t
    case Not => "!(" + t + ")"
    case IsNull => "(" + t + " IS NULL)"
    case OrderClause(ascending) => if ascending then t + " ASC" else t + " DESC"
    case Limit => "LIMIT " + t
    case Offset => "OFFSET " + t
    case Cte(alias, recursive) => if recursive then "RECURSIVE " + alias + " AS (" + t + ")" else alias + " AS (" + t + ")"
  }

  function SeparatorText(kind: Listed): string {
    if kind.Conjunction? then " AND " else if kind.Disjunction? then " OR " else ", "
  }

  function ListText(kind: Listed, t: string): string {
    match kind
    case Function(_, name) => name + "(" + t + ")"
    case Projection => t
    case Conjunction => "(" + t + ")"
    case Disjunction => "(" + t + ")"
    case OrderBy => "ORDER BY " + t
    case GroupBy => "GROUP BY " + t
    case Set => " SET " + t
  }

  function PairText(pairing: Pairing, t: string, u: string): string {
    match pairing
    case Over => t + " OVER (" + u + ")"
    case Update => "UPDATE " + t + " " + u
    case UpdateWhere => t + " WHERE " + u
    case Returning => t + " RETURNING " + u
  }

  function TokenText(comparison: Comparison): string {
    match comparison
    case Equals => " = "
    case GreaterThan => " > "
    case LessThan => " < "
  }

  /** The text of a query whose placeholders are numbered from `p`. */
  function Written(m: Mapped, p: nat): string
    decreases m
  {
    match m
    case Plainly(words) => WordsText(words)
    case Named(name, _) => " " + name
    case NamedIn(projection, name, _) => Written(projection, p) + "." + name
    case Around(clause, inner) => ClauseText(clause, Written(inner, p))
    case ListOf(kind, parts) => ListText(kind, WrittenList(SeparatorText(kind), parts, p, true))
    case Compare(comparison, left, right) => Written(left, p) + TokenText(comparison) + WrittenValue(right, p + Placed(left))
    case Pair(pairing, first, second) => PairText(pairing, Written(first, p), Written(second, p + Placed(first)))
    case Select(selection, from, clauses) =>
      var q := p + Placed(selection);
      var tail := WrittenList(" ", clauses, q + Placed(from), true);
      "SELECT " + Written(selection, p) + " FROM " + Written(from, q) + if clauses.NoMapped? then "" else " " + tail
    case With(expressions, query) =>
      "WITH " + WrittenList(", ", expressions, p, true) + " " + Written(query, p + PlacedIn(expressions))
    case Insert(into, stored) =>
      var q := p + Placed(into);
      "INSERT INTO " + Written(into, p) + " (" + WrittenColumns(stored, q, true) + ") VALUES ("
        + WrittenValues(stored, q + PlacedInColumns(stored), true) + ")"
    case Conflict(insertion, target, action) =>
      var q := p + Placed(insertion);
      Written(insertion, p) + " ON CONFLICT (" + Written(target, q) + ") DO " + Written(action, q + Placed(target))
    case UpdateFromExcluded(excluded) => "UPDATE SET " + WrittenExcluded(excluded, true)
    case Delete(from, criteria) => "DELETE FROM" + Written(from, p) + " " + Written(criteria, p + Placed(from))
  }

  function WrittenValue(value: Given, p: nat): string
    decreases value
  {
    match value
    case NewParameter => "$" + Digits(p)
    case EarlierParameter(i) => "$" + Digits(i)
    case ValueOf(projection, name) => Written(projection, p) + "." + name
  }

  /** A separator stands before every part but the first. */
  function Unless(first: bool, separator: string): string {
    if first then "" else separator
  }

  function WrittenList(separator: string, several: Several, p: nat, first: bool): string
    decreases several
  {
    match several
    case NoMapped => ""
    case MoreMapped(head, rest) => Unless(first, separator) + Written(head, p) + WrittenList(separator, rest, p + Placed(head), false)
  }

  function WrittenColumns(stored: Stored, p: nat, first: bool): string
    decreases stored
  {
    match stored
    case NothingStored => ""
    case Store(column, _, rest) => Unless(first, ", ") + Written(column, p) + WrittenColumns(rest, p + Placed(column), false)
  }

  function WrittenValues(stored: Stored, p: nat, first: bool): string
    decreases stored
  {
    match stored
    case NothingStored => ""
    case Store(_, value, rest) => Unless(first, ", ") + WrittenValue(value, p) + WrittenValues(rest, p + PlacedBy(value), false)
  }

  function WrittenExcluded(columns: seq<(string, string)>, first: bool): string {
    if columns == [] then ""
    else Unless(first, ", ") + (" " + columns[0].0 + " = EXCLUDED." + columns[0].0) + WrittenExcluded(columns[1..], false)
  }

  // ----- rendering and texts -----

  /** If it compiles, the text is appended and the counter goes on by the number of new placeholders. */
  ghost predicate Says(r: Rendered, prev: string, text: string, p: nat, n: nat) {
    r.Some? ==> r.value == (prev + text, p + n)
  }

  lemma Regrouped(a: string, b: string, c: string, d: string)
    ensures a + b + c + d == a + (b + c + d)
  {
    Associates(a, b, c);
    Associates(a, b + c, d);
  }

  lemma Bare(text: string)
    ensures text + "" == text && "" + text == text
  {
  }

  lemma DottedSays(projection: Component, name: string, valueType: string, prev: string, p: nat, t: string, n: nat)
    requires Says(Render(projection, prev, p), prev, t, p, n)
    ensures Says(Render(ColumnOf(projection, name, valueType), prev, p), prev, t + "." + name, p, n)
    ensures Says(RenderOperand(OtherColumn(projection, name), prev, p), prev, t + "." + name, p, n)
  {
    Associates(prev, t, ".");
    Associates(prev, t + ".", name);
  }

  lemma WrappedSays(before: string, inner: Component, after: string, prev: string, p: nat, t: string, n: nat)
    requires Says(Render(inner, prev + before, p), prev + before, t, p, n)
    ensures Says(Render(Wrapped(before, inner, after), prev, p), prev, before + t + after, p, n)
  {
    Regrouped(prev, before, t, after);
  }

  lemma ListingSays(before: string, separator: string, parts: Components, after: string, of: string, prev: string, p: nat, t: string, n: nat)
    requires Says(RenderList(separator, parts, true, prev + before, p), prev + before, t, p, n)
    ensures Says(Render(Listing(before, separator, parts, after, of), prev, p), prev, before + t + after, p, n)
  {
    Regrouped(prev, before, t, after);
  }

  lemma JoinedSays(before: string, first: Component, between: string, second: Component, after: string, prev: string, p: nat,
                   t: string, n: nat, u: string, m: nat)
    requires Says(Render(first, prev + before, p), prev + before, t, p, n)
    requires Says(Render(second, prev + before + t + between, p + n), prev + before + t + between, u, p + n, m)
    ensures Says(Render(Joined(before, first, between, second, after), prev, p), prev, before + t + between + u + after, p, n + m)
  {
    Regrouped(prev, before, t, between);
    Regrouped(prev, before + t + between, u, after);
  }

  lemma CriterionSays(left: Component, token: string, operand: Operand, prev: string, p: nat, t: string, n: nat, u: string, m: nat)
    requires Says(Render(left, prev, p), prev, t, p, n)
    requires Says(RenderOperand(operand, prev + t + token, p + n), prev + t + token, u, p + n, m)
    ensures Says(Render(Criterion(left, token, operand), prev, p), prev, t + token + u, p, n + m)
  {
    Regrouped(prev, t, token, u);
  }

  lemma InsertSays(entity: Component, assignments: Assignments, prev: string, p: nat, t: string, n: nat, u: string, m: nat, v: string, k: nat,
                   a: string, b: string, c: string, d: string)
    requires a == "INSERT INTO " && b == " (" && c == ") VALUES (" && d == ")"
    requires Says(Render(entity, prev + a, p), prev + a, t, p, n)
    requires Says(RenderColumns(assignments, true, prev + a + t + b, p + n), prev + a + t + b, u, p + n, m)
    requires Says(RenderValues(assignments, true, prev + a + t + b + u + c, p + n + m), prev + a + t + b + u + c, v, p + n + m, k)
    ensures Says(Render(InsertInto(entity, assignments), prev, p), prev, a + t + b + u + c + v + d, p, n + (m + k))
  {
    Regrouped(prev, a, t, b);
    Regrouped(prev, a + t + b, u, c);
    Regrouped(prev, a + t + b + u + c, v, d);
  }

  lemma ConflictSays(query: Component, target: Component, action: Component, prev: string, p: nat, t: string, n: nat, u: string, m: nat,
                     v: string, k: nat, a: string, b: string)
    requires a == " ON CONFLICT (" && b == ") DO " && Says(Render(query, prev, p), prev, t, p, n)
    requires Says(Render(target, prev + t + a, p + n), prev + t + a, u, p + n, m)
    requires Says(Render(action, prev + t + a + u + b, p + n + m), prev + t + a + u + b, v, p + n + m, k)
    ensures Says(Render(OnConflict(query, target, action), prev, p), prev, t + a + u + b + v, p, n + (m + k))
  {
    Regrouped(prev, t, a, u);
    Regrouped(prev, t + a + u, b, v);
  }

  lemma DeleteSays(entity: Component, criteria: Component, prev: string, p: nat, t: string, n: nat, u: string, m: nat, a: string, b: string)
    requires a == "DELETE FROM" && b == " " && Says(Render(entity, prev + a, p), prev + a, t, p, n)
    requires Says(Render(criteria, prev + a + t + b, p + n), prev + a + t + b, u, p + n, m)
    ensures Says(Render(DeleteFrom(entity, criteria), prev, p), prev, a + t + b + u, p, n + m)
  {
    Regrouped(prev, a, t, b);
    Associates(prev, a + t + b, u);
  }

  lemma Started(prev: string, separator: string, first: bool)
    ensures (if first then prev else prev + separator) == prev + Unless(first, separator)
  {
    Bare(prev);
  }

  lemma ClauseReads(clause: Clause, t: string)
    ensures clause.Before() + t + clause.After() == ClauseText(clause, t)
  {
    Bare(t);
    match clause
    case Alias(alias) => Associates(t, " AS ", alias);
    case Selector(token) => Bare(token + " " + t);
    case PartitionBy => Bare("PARTITION BY " + t);
    case Where => Bare("WHERE " + t);
    case Limit => Bare("LIMIT " + t);
    case Offset => Bare("OFFSET " + t);
    case Cte(alias, recursive) => Bare(alias);
    case _ =>
  }

  lemma ListReads(kind: Listed, t: string)
    ensures kind.Before() + t + kind.After() == ListText(kind, t) && kind.Separator() == SeparatorText(kind)
  {
    Bare(t);
    Bare("ORDER BY " + t);
    Bare("GROUP BY " + t);
    Bare(" SET " + t);
  }

  lemma PairReads(pairing: Pairing, t: string, u: string)
    ensures pairing.Before() + t + pairing.Between() + u + pairing.After() == PairText(pairing, t, u)
  {
    Bare(t);
    match pairing
    case Over =>
    case Update => Bare("UPDATE " + t + " " + u);
    case UpdateWhere => Bare(t + " WHERE " + u);
    case Returning => Bare(t + " RETURNING " + u);
  }

  // ----- every query renders as it is written -----

  lemma {:induction false} RendersAsWritten(m: Mapped, prev: string, p: nat)
    ensures Says(Render(Shape(m), prev, p), prev, Written(m, p), p, Placed(m))
    decreases m, 2
  {
    match m
    case Plainly(_) =>
    case Named(name, _) => Associates(prev, " ", name);
    case NamedIn(projection, name, valueType) =>
      RendersAsWritten(projection, prev, p);
      DottedSays(Shape(projection), name, valueType, prev, p, Written(projection, p), Placed(projection));
    case Around(clause, inner) =>
      RendersAsWritten(inner, prev + clause.Before(), p);
      WrappedSays(clause.Before(), Shape(inner), clause.After(), prev, p, Written(inner, p), Placed(inner));
      ClauseReads(clause, Written(inner, p));
    case ListOf(kind, parts) =>
      var text := WrittenList(SeparatorText(kind), parts, p, true);
      ListReads(kind, text);
      ListAsWritten(kind.Separator(), parts, true, prev + kind.Before(), p);
      ListingSays(kind.Before(), kind.Separator(), Shapes(parts), kind.After(), if kind.Function? then kind.valueType else "", prev, p,
                  text, PlacedIn(parts));
    case Compare(comparison, left, right) => CompareAsWritten(comparison, left, right, prev, p);
    case Pair(pairing, first, second) => PairAsWritten(pairing, first, second, prev, p);
    case _ => StatementAsWritten(m, prev, p);
  }

  lemma {:induction false} CompareAsWritten(comparison: Comparison, left: Mapped, right: Given, prev: string, p: nat)
    ensures var m := Compare(comparison, left, right); Says(Render(Shape(m), prev, p), prev, Written(m, p), p, Placed(m))
    decreases Compare(comparison, left, right), 0
  {
    var t, q := Written(left, p), p + Placed(left);
    RendersAsWritten(left, prev, p);
    ValueAsWritten(right, prev + t + comparison.Token(), q);
    CriterionSays(Shape(left), comparison.Token(), OperandOf(right), prev, p, t, Placed(left), WrittenValue(right, q), PlacedBy(right));
  }

  lemma {:induction false} PairAsWritten(pairing: Pairing, first: Mapped, second: Mapped, prev: string, p: nat)
    ensures var m := Pair(pairing, first, second); Says(Render(Shape(m), prev, p), prev, Written(m, p), p, Placed(m))
    decreases Pair(pairing, first, second), 0
  {
    var t, q := Written(first, p), p + Placed(first);
    RendersAsWritten(first, prev + pairing.Before(), p);
    RendersAsWritten(second, prev + pairing.Before() + t + pairing.Between(), q);
    JoinedSays(pairing.Before(), Shape(first), pairing.Between(), Shape(second), pairing.After(), prev, p,
               t, Placed(first), Written(second, q), Placed(second));
    PairReads(pairing, t, Written(second, q));
  }

  lemma {:induction false} StatementAsWritten(m: Mapped, prev: string, p: nat)
    requires m.Select? || m.With? || m.Insert? || m.Conflict? || m.UpdateFromExcluded? || m.Delete?
    ensures Says(Render(Shape(m), prev, p), prev, Written(m, p), p, Placed(m))
    decreases m, 1
  {
    match m
    case Select(selection, from, clauses) => SelectAsWritten(selection, from, clauses, prev, p);
    case With(expressions, query) => WithAsWritten(expressions, query, prev, p);
    case Insert(into, stored) => InsertAsWritten(into, stored, prev, p);
    case Conflict(insertion, target, action) => ConflictAsWritten(insertion, target, action, prev, p);
    case UpdateFromExcluded(excluded) =>
      ExcludedAsWritten(excluded, true, prev + "UPDATE SET ", p);
      ListingSays("UPDATE SET ", ", ", FromExcluded(excluded), "", "", prev, p, WrittenExcluded(excluded, true), 0);
      Bare("UPDATE SET " + WrittenExcluded(excluded, true));
    case Delete(from, criteria) => DeleteAsWritten(from, criteria, prev, p);
  }

  lemma {:induction false} WithAsWritten(expressions: Several, query: Mapped, prev: string, p: nat)
    ensures var m := With(expressions, query); Says(Render(Shape(m), prev, p), prev, Written(m, p), p, Placed(m))
    decreases With(expressions, query), 0
  {
    var list, q := WrittenList(", ", expressions, p, true), p + PlacedIn(expressions);
    ListAsWritten(", ", expressions, true, prev + "WITH " + "", p);
    RendersAsWritten(query, prev + "WITH " + list + " ", q);
    WithSays(Shapes(expressions), Shape(query), prev, p, list, PlacedIn(expressions), Written(query, q), Placed(query), "WITH ", " ");
  }

  lemma {:induction false} DeleteAsWritten(from: Mapped, criteria: Mapped, prev: string, p: nat)
    ensures var m := Delete(from, criteria); Says(Render(Shape(m), prev, p), prev, Written(m, p), p, Placed(m))
    decreases Delete(from, criteria), 0
  {
    var t, q := Written(from, p), p + Placed(from);
    RendersAsWritten(from, prev + "DELETE FROM", p);
    RendersAsWritten(criteria, prev + "DELETE FROM" + t + " ", q);
    DeleteSays(Shape(from), Shape(criteria), prev, p, t, Placed(from), Written(criteria, q), Placed(criteria), "DELETE FROM", " ");
  }

  lemma WithSays(list: Components, query: Component, prev: string, p: nat, t: string, n: nat, u: string, m: nat, a: string, b: string)
    requires Says(RenderList(", ", list, true, prev + a + "", p), prev + a + "", t, p, n)
    requires Says(Render(query, prev + a + t + b, p + n), prev + a + t + b, u, p + n, m)
    ensures Says(Render(Joined(a, Listing("", ", ", list, "", ""), b, query, ""), prev, p), prev, a + t + b + u, p, n + m)
  {
    ListingSays("", ", ", list, "", "", prev + a, p, t, n);
    Bare(t);
    JoinedSays(a, Listing("", ", ", list, "", ""), b, query, "", prev, p, t, n, u, m);
    Bare(a + t + b + u);
  }

  lemma {:induction false} SelectAsWritten(selection: Mapped, from: Mapped, clauses: Several, prev: string, p: nat)
    ensures var m := Select(selection, from, clauses); Says(Render(Shape(m), prev, p), prev, Written(m, p), p, Placed(m))
    decreases Select(selection, from, clauses), 0
  {
    var q := p + Placed(selection);
    var r := q + Placed(from);
    var space := if clauses.NoMapped? then "" else " ";
    var s, f, l := Written(selection, p), Written(from, q), WrittenList(" ", clauses, r, true);
    RendersAsWritten(selection, prev + "SELECT ", p);
    RendersAsWritten(from, prev + "SELECT " + s + " FROM " + "", q);
    ListAsWritten(" ", clauses, true, prev + "SELECT " + s + " FROM " + "" + f + space + "", r);
    FromSays(Shape(from), Shapes(clauses), prev + "SELECT " + s + " FROM ", q, f, Placed(from), l, PlacedIn(clauses), space);
    JoinedSays("SELECT ", Shape(selection), " FROM ", FromWith(Shape(from), Shapes(clauses)), "", prev, p, s, Placed(selection),
               f + (space + l), Placed(from) + PlacedIn(clauses));
    Bare("SELECT " + s + " FROM " + (f + (space + l)));
    Associates("SELECT " + s + " FROM ", f, space + l);
  }

  lemma FromSays(from: Component, clauses: Components, prev: string, p: nat, f: string, m: nat, l: string, k: nat, space: string)
    requires space == if clauses.Nothing? then "" else " "
    requires Says(Render(from, prev + "", p), prev + "", f, p, m)
    requires Says(RenderList(" ", clauses, true, prev + "" + f + space + "", p + m), prev + "" + f + space + "", l, p + m, k)
    ensures Says(Render(FromWith(from, clauses), prev, p), prev, f + (space + l), p, m + k)
  {
    var list := Listing("", " ", clauses, "", "");
    ListingSays("", " ", clauses, "", "", prev + "" + f + space, p + m, l, k);
    Bare(l);
    JoinedSays("", from, space, list, "", prev, p, f, m, l, k);
    Bare(f);
    Associates(f, space, l);
    Bare(f + (space + l));
  }

  lemma {:induction false} InsertAsWritten(into: Mapped, stored: Stored, prev: string, p: nat)
    ensures var m := Insert(into, stored); Says(Render(Shape(m), prev, p), prev, Written(m, p), p, Placed(m))
    decreases Insert(into, stored), 0
  {
    var q := p + Placed(into);
    var r := q + PlacedInColumns(stored);
    var t, u := Written(into, p), WrittenColumns(stored, q, true);
    RendersAsWritten(into, prev + "INSERT INTO ", p);
    ColumnsAsWritten(stored, true, prev + "INSERT INTO " + t + " (", q);
    ValuesAsWritten(stored, true, prev + "INSERT INTO " + t + " (" + u + ") VALUES (", r);
    InsertSays(Shape(into), Assigned(stored), prev, p, t, Placed(into), u, PlacedInColumns(stored), WrittenValues(stored, r, true),
               PlacedInValues(stored), "INSERT INTO ", " (", ") VALUES (", ")");
  }

  lemma {:induction false} ConflictAsWritten(insertion: Mapped, target: Mapped, action: Mapped, prev: string, p: nat)
    ensures var m := Conflict(insertion, target, action); Says(Render(Shape(m), prev, p), prev, Written(m, p), p, Placed(m))
    decreases Conflict(insertion, target, action), 0
  {
    var q := p + Placed(insertion);
    var r := q + Placed(target);
    var t, u := Written(insertion, p), Written(target, q);
    RendersAsWritten(insertion, prev, p);
    RendersAsWritten(target, prev + t + " ON CONFLICT (", q);
    RendersAsWritten(action, prev + t + " ON CONFLICT (" + u + ") DO ", r);
    ConflictSays(Shape(insertion), Shape(target), Shape(action), prev, p, t, Placed(insertion), u, Placed(target), Written(action, r),
                 Placed(action), " ON CONFLICT (", ") DO ");
  }

  lemma {:induction false} ValueAsWritten(value: Given, prev: string, p: nat)
    ensures Says(RenderOperand(OperandOf(value), prev, p), prev, WrittenValue(value, p), p, PlacedBy(value))
    decreases value, 0
  {
    match value
    case NewParameter => Associates(prev, "$", Digits(p));
    case EarlierParameter(i) => Associates(prev, "$", Digits(i));
    case ValueOf(projection, name) =>
      RendersAsWritten(projection, prev, p);
      DottedSays(Shape(projection), name, "", prev, p, Written(projection, p), Placed(projection));
  }

  lemma {:induction false} ListAsWritten(separator: string, several: Several, first: bool, prev: string, p: nat)
    ensures Says(RenderList(separator, Shapes(several), first, prev, p), prev, WrittenList(separator, several, p, first), p, PlacedIn(several))
    decreases several, 0
  {
    if several.NoMapped? {
      Bare(prev);
    } else {
      var head, rest := several.first, several.rest;
      var start, q := prev + Unless(first, separator), p + Placed(head);
      Started(prev, separator, first);
      RendersAsWritten(head, start, p);
      ListAsWritten(separator, rest, false, start + Written(head, p), q);
      Regrouped(prev, Unless(first, separator), Written(head, p), WrittenList(separator, rest, q, false));
    }
  }

  lemma {:induction false} ColumnsAsWritten(stored: Stored, first: bool, prev: string, p: nat)
    ensures Says(RenderColumns(Assigned(stored), first, prev, p), prev, WrittenColumns(stored, p, first), p, PlacedInColumns(stored))
    decreases stored, 0
  {
    if stored.NothingStored? {
      Bare(prev);
    } else {
      var start, q := prev + Unless(first, ", "), p + Placed(stored.column);
      Started(prev, ", ", first);
      RendersAsWritten(stored.column, start, p);
      ColumnsAsWritten(stored.rest, false, start + Written(stored.column, p), q);
      Regrouped(prev, Unless(first, ", "), Written(stored.column, p), WrittenColumns(stored.rest, q, false));
    }
  }

  lemma {:induction false} ValuesAsWritten(stored: Stored, first: bool, prev: string, p: nat)
    ensures Says(RenderValues(Assigned(stored), first, prev, p), prev, WrittenValues(stored, p, first), p, PlacedInValues(stored))
    decreases stored, 0
  {
    if stored.NothingStored? {
      Bare(prev);
    } else {
      var start, q := prev + Unless(first, ", "), p + PlacedBy(stored.value);
      Started(prev, ", ", first);
      ValueAsWritten(stored.value, start, p);
      ValuesAsWritten(stored.rest, false, start + WrittenValue(stored.value, p), q);
      Regrouped(prev, Unless(first, ", "), WrittenValue(stored.value, p), WrittenValues(stored.rest, q, false));
    }
  }

  lemma {:induction false} ExcludedAsWritten(columns: seq<(string, string)>, first: bool, prev: string, p: nat)
    ensures Says(RenderList(", ", FromExcluded(columns), first, prev, p), prev, WrittenExcluded(columns, first), p, 0)
  {
    if columns == [] {
      Bare(prev);
    } else {
      var (name, valueType) := columns[0];
      var here := " " + name + " = EXCLUDED." + name;
      var start := prev + Unless(first, ", ");
      Started(prev, ", ", first);
      OneExcluded(name, valueType, start, p);
      ExcludedAsWritten(columns[1..], false, start + here, p);
      Regrouped(prev, Unless(first, ", "), here, WrittenExcluded(columns[1..], false));
    }
  }

  lemma OneExcluded(name: string, valueType: string, prev: string, p: nat)
    ensures Says(Render(Criterion(Column(name, valueType), " = ", OtherColumn(Text("EXCLUDED"), name)), prev, p), prev,
                 " " + name + " = EXCLUDED." + name, p, 0)
  {
    Associates(prev, " ", name);
    DottedSays(Text("EXCLUDED"), name, "", prev + (" " + name) + " = ", p, "EXCLUDED", 0);
    CriterionSays(Column(name, valueType), " = ", OtherColumn(Text("EXCLUDED"), name), prev, p, " " + name, 0, "EXCLUDED" + "." + name, 0);
    ExcludedText(" " + name, name);
  }

  lemma ExcludedText(a: string, b: string)
    ensures a + " = " + ("EXCLUDED" + "." + b) == a + " = EXCLUDED." + b
  {
    assert " = " + ("EXCLUDED" + ".") == " = EXCLUDED.";
    Associates("EXCLUDED", ".", b);
    Associates(a, " = ", "EXCLUDED" + "." + b);
    Associates(" = ", "EXCLUDED" + ".", b);
    Associates(a, " = EXCLUDED.", b);
  }

  /** The renderer, with its counter threaded through all components, gives every query the text that it is written with. */
  lemma QueryText(query: Mapped, text: string)
    requires ToText(Shape(query)) == Some(text)
    ensures text == Written(query, 1)
  {
    RendersAsWritten(query, "", 1);
    Bare(Written(query, 1));
  }
}
