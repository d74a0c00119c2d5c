/** Rendering with a threaded placeholder counter, the parameter list computed beside it, and the pieces of the text. */
module SqlRenderer {
  import opened Bytes
  import opened SqlComponents

  // ----- as the source renders -----

  /** The text so far and the number of the next placeholder; nothing when an earlier parameter is referred to that is not
      earlier, which does not compile. */
  type Rendered = Option<(string, nat)>

  function RenderOperand(operand: Operand, prev: string, p: nat): Rendered
    decreases operand, 0
  {
    match operand
    case Parameter => Some((prev + "$" + Digits(p), p + 1))
    case BoundParameter(i) => if i < p then Some((prev + "$" + Digits(i), p)) else None
    case OtherColumn(projection, name) =>
      match Render(projection, prev, p)
      case None => None
      case Some((next, u)) => Some((next + "." + name, u))
  }

  function Render(c: Component, prev: string, p: nat): Rendered
    decreases c, 0
  {
    match c
    case Text(text) => Some((prev + text, p))
    case Column(name, _) => Some((prev + " " + name, p))
    case ColumnOf(projection, name, _) =>
      (match Render(projection, prev, p)
       case None => None
       case Some((next, u)) => Some((next + "." + name, u)))
    case Wrapped(before, inner, after) =>
      (match Render(inner, prev + before, p)
       case None => None
       case Some((next, u)) => Some((next + after, u)))
    case Listing(before, separator, parts, after, _) =>
      (match RenderList(separator, parts, true, prev + before, p)
       case None => None
       case Some((next, u)) => Some((next + after, u)))
    case Joined(before, first, between, second, after) =>
      (match Render(first, prev + before, p)
       case None => None
       case Some((next, u)) =>
         match Render(second, next + between, u)
         case None => None
         case Some((next2, u2)) => Some((next2 + after, u2)))
    case Criterion(component, token, operand) =>
      (match Render(component, prev, p)
       case None => None
       case Some((next, u)) => RenderOperand(operand, next + token, u))
    case InsertInto(entity, assignments) =>
      (match Render(entity, prev + "INSERT INTO ", p)
       case None => None
       case Some((next, u)) =>
         match RenderColumns(assignments, true, next + " (", u)
         case None => None
         case Some((next2, u2)) =>
           match RenderValues(assignments, true, next2 + ") VALUES (", u2)
           case None => None
           case Some((next3, u3)) => Some((next3 + ")", u3)))
    case OnConflict(query, conflicting, action) =>
      (match Render(query, prev, p)
       case None => None
       case Some((next, u)) =>
         match Render(conflicting, next + " ON CONFLICT (", u)
         case None => None
         case Some((next2, u2)) => Render(action, next2 + ") DO ", u2))
    case DeleteFrom(entity, criteria) =>
      (match Render(entity, prev + "DELETE FROM", p)
       case None => None
       case Some((next, u)) => Render(criteria, next + " ", u))
  }

  /** `VariadicRenderable`: the separator goes before every component but the first. */
  function RenderList(separator: string, parts: Components, first: bool, prev: string, p: nat): Rendered
    decreases parts, 0
  {
    match parts
    case Nothing => Some((prev, p))
    case Also(head, tail) =>
      match Render(head, if first then prev else prev + separator, p)
      case None => None
      case Some((next, u)) => RenderList(separator, tail, false, next, u)
  }

  function RenderColumns(assignments: Assignments, first: bool, prev: string, p: nat): Rendered
    decreases assignments, 0
  {
    match assignments
    case NoMore => Some((prev, p))
    case Assign(column, _, rest) =>
      match Render(column, if first then prev else prev + ", ", p)
      case None => None
      case Some((next, u)) => RenderColumns(rest, false, next, u)
  }

  function RenderValues(assignments: Assignments, first: bool, prev: string, p: nat): Rendered
    decreases assignments, 0
  {
    match assignments
    case NoMore => Some((prev, p))
    case Assign(_, value, rest) =>
      match RenderOperand(value, if first then prev else prev + ", ", p)
      case None => None
      case Some((next, u)) => RenderValues(rest, false, next, u)
  }

  /** `IQuery::ToString`: from the empty text, counting from one. */
  function ToText(query: Component): Option<string> {
    match Render(query, "", 1)
    case None => None
    case Some((text, _)) => Some(text)
  }

  // ----- as the source computes the parameter list -----

  function OperandTypes(operand: Operand, of: Component): seq<string> {
    if operand.Parameter? then [ValueType(of)] else []
  }

  function ParameterTypes(c: Component): seq<string> {
    match c
    case Text(_) => []
    case Column(_, _) => []
    case ColumnOf(_, _, _) => []
    case Wrapped(_, inner, _) => ParameterTypes(inner)
    case Listing(_, _, parts, _, _) => ListTypes(parts)
    case Joined(_, first, _, second, _) => ParameterTypes(first) + ParameterTypes(second)
    case Criterion(component, _, operand) => ParameterTypes(component) + OperandTypes(operand, component)
    case InsertInto(entity, assignments) => ParameterTypes(entity) + AssignedTypes(assignments)
    case OnConflict(query, _, action) => ParameterTypes(query) + ParameterTypes(action)
    case DeleteFrom(_, criteria) => ParameterTypes(criteria)
  }

  function ListTypes(parts: Components): seq<string> {
    match parts
    case Nothing => []
    case Also(head, tail) => ParameterTypes(head) + ListTypes(tail)
  }

  function AssignedTypes(assignments: Assignments): seq<string> {
    match assignments
    case NoMore => []
    case Assign(column, value, rest) => OperandTypes(value, column) + AssignedTypes(rest)
  }

  // ----- the pieces of the text, in order -----

  datatype Piece = Literal(text: string) | Fresh(valueType: string) | Again(index: nat)

  function OperandPieces(operand: Operand, of: string): seq<Piece>
    decreases operand, 0
  {
    match operand
    case Parameter => [Fresh(of)]
    case BoundParameter(i) => [Again(i)]
    case OtherColumn(projection, name) => Pieces(projection) + [Literal("." + name)]
  }

  function Pieces(c: Component): seq<Piece>
    decreases c, 0
  {
    match c
    case Text(text) => [Literal(text)]
    case Column(name, _) => [Literal(" " + name)]
    case ColumnOf(projection, name, _) => Pieces(projection) + [Literal("." + name)]
    case Wrapped(before, inner, after) => [Literal(before)] + Pieces(inner) + [Literal(after)]
    case Listing(before, separator, parts, after, _) => [Literal(before)] + ListPieces(separator, parts, true) + [Literal(after)]
    case Joined(before, first, between, second, after) =>
      [Literal(before)] + Pieces(first) + ([Literal(between)] + Pieces(second) + [Literal(after)])
    case Criterion(component, token, operand) =>
      Pieces(component) + ([Literal(token)] + OperandPieces(operand, ValueType(component)))
    case InsertInto(entity, assignments) =>
      [Literal("INSERT INTO ")] + Pieces(entity) + ([Literal(" (")] + ColumnPieces(assignments, true) +
        ([Literal(") VALUES (")] + ValuePieces(assignments, true) + [Literal(")")]))
    case OnConflict(query, conflicting, action) =>
      Pieces(query) + ([Literal(" ON CONFLICT (")] + Pieces(conflicting) + ([Literal(") DO ")] + Pieces(action)))
    case DeleteFrom(entity, criteria) => [Literal("DELETE FROM")] + Pieces(entity) + ([Literal(" ")] + Pieces(criteria))
  }

  function Separation(separator: string, first: bool): seq<Piece> {
    if first then [] else [Literal(separator)]
  }

  function ListPieces(separator: string, parts: Components, first: bool): seq<Piece>
    decreases parts, 0
  {
    match parts
    case Nothing => []
    case Also(head, tail) => Separation(separator, first) + Pieces(head) + ListPieces(separator, tail, false)
  }

  function ColumnPieces(assignments: Assignments, first: bool): seq<Piece>
    decreases assignments, 0
  {
    match assignments
    case NoMore => []
    case Assign(column, _, rest) => Separation(", ", first) + Pieces(column) + ColumnPieces(rest, false)
  }

  function ValuePieces(assignments: Assignments, first: bool): seq<Piece>
    decreases assignments, 0
  {
    match assignments
    case NoMore => []
    case Assign(column, value, rest) => Separation(", ", first) + OperandPieces(value, ValueType(column)) + ValuePieces(rest, false)
  }

  function FreshTypes(pieces: seq<Piece>): seq<string> {
    if pieces == [] then [] else (if pieces[0].Fresh? then [pieces[0].valueType] else []) + FreshTypes(pieces[1..])
  }

  /** The text of the pieces when new placeholders count from `p`. */
  function Spell(pieces: seq<Piece>, p: nat): string {
    if pieces == [] then ""
    else
      match pieces[0]
      case Literal(text) => text + Spell(pieces[1..], p)
      case Fresh(_) => "$" + Digits(p) + Spell(pieces[1..], p + 1)
      case Again(i) => "$" + Digits(i) + Spell(pieces[1..], p)
  }

  /** Every parameter that is referred to again has a smaller number than the next placeholder. */
  predicate Legal(pieces: seq<Piece>, p: nat) {
    pieces == [] || match pieces[0]
      case Literal(_) => Legal(pieces[1..], p)
      case Fresh(_) => Legal(pieces[1..], p + 1)
      case Again(i) => i < p && Legal(pieces[1..], p)
  }

  function Expected(pieces: seq<Piece>, prev: string, p: nat): Rendered {
    if Legal(pieces, p) then Some((prev + Spell(pieces, p), p + |FreshTypes(pieces)|)) else None
  }
}
