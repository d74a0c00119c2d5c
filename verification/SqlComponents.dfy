/** The few shapes that the components of queries have. */
module SqlComponents {

  /** What a criterion compares with, or what an insertion stores: a new parameter, an earlier one, or a column. */
  datatype Operand = Parameter | BoundParameter(index: nat) | OtherColumn(projection: Component, name: string)

  datatype Component =
    | Text(text: string)
    | Column(name: string, valueType: string)
    | ColumnOf(projection: Component, name: string, valueType: string)
    | Wrapped(before: string, inner: Component, after: string)
    | Listing(before: string, separator: string, parts: Components, after: string, valueType: string)
    | Joined(before: string, first: Component, between: string, second: Component, after: string)
    | Criterion(component: Component, token: string, operand: Operand)
    | InsertInto(entity: Component, assignments: Assignments)
    | OnConflict(query: Component, conflicting: Component, action: Component)
    | DeleteFrom(entity: Component, criteria: Component)

  datatype Components = Nothing | Also(head: Component, tail: Components)

  datatype Assignments = NoMore | Assign(column: Component, value: Operand, rest: Assignments)

  /** The value type that a parameter compared with the component has. */
  function ValueType(c: Component): string {
    match c
    case Text(_) => ""
    case Column(_, t) => t
    case ColumnOf(_, _, t) => t
    case Wrapped(_, inner, _) => ValueType(inner)
    case Listing(_, _, _, _, t) => t
    case Joined(_, first, _, _, _) => ValueType(first)
    case Criterion(_, _, _) => ""
    case InsertInto(_, _) => ""
    case OnConflict(_, _, _) => ""
    case DeleteFrom(_, _) => ""
  }

  // ----- numbers as text -----

  function Digit(d: nat): char
    requires d < 10
  {
    "0123456789"[d]
  }

  /** Digits are split off the right end and put before those split off so far; nothing is left of zero. */
  function Explode(remainder: nat, digits: string): string
    decreases remainder
  {
    if remainder == 0 then digits else Explode(remainder / 10, [Digit(remainder % 10)] + digits)
  }

  function Digits(n: nat): string {
    Explode(n, "")
  }
}
