/** The syntax of compiled patterns: what the template arguments of `evaluate` are made of.

    A pattern is a type list in the source; here it is a value.  The marks at the end of `Node` never come from a
    pattern: the evaluator pushes them on its continuation stack. */
module RegexSyntax {

  const INT64_MIN: int := -0x8000_0000_0000_0000
  const INT64_MAX: int := 0x7fff_ffff_ffff_ffff

  /** A constant written in a pattern. */
  type Code = c: int | INT64_MIN <= c <= INT64_MAX witness 0

  /** A character of the subject: any value of any C++ character type. */
  type Char = c: int | -0x8000_0000 <= c <= 0xffff_ffff witness 0

  type Subject = seq<Char>

  /** What matches exactly one character. */
  datatype Item =
    | Character(v: Code)
    | CharRange(low: Code, high: Code)
    | Enumeration(values: seq<Code>)
    | CharSet(items: Items)
    | NegativeSet(items: Items)

  datatype Items = NoItem | MoreItems(first: Item, rest: Items)

  predicate MatchItem(item: Item, c: Code) {
    match item
    case Character(v) => c == v
    case CharRange(low, high) => low <= c <= high
    case Enumeration(values) => c in values
    case CharSet(items) => MatchSome(items, c)
    case NegativeSet(items) => !MatchSome(items, c)
  }

  predicate MatchSome(items: Items, c: Code) {
    match items
    case NoItem => false
    case MoreItems(item, rest) => MatchItem(item, c) || MatchSome(rest, c)
  }

  datatype Mode = Greedy | Lazy | Possessive

  datatype Node =
    | One(item: Item)
    | AnyChar
    | Text(chars: seq<Code>)
    | Empty
    | Sequence(parts: Nodes)
    | Select(options: Nodes)
    | Capture(id: nat, content: Nodes)
    | Repeat(mode: Mode, min: nat, max: nat, content: Nodes)  // max == 0 means no upper bound
    | AssertBegin
    | AssertEnd
    | Reject
      // marks pushed by the evaluator
    | StartMark
    | NumericMark(id: nat)
    | EndMark
    | EndCycleMark
    | Accept

  datatype Nodes = Nil | Cons(head: Node, tail: Nodes)

  function Append(front: Nodes, back: Nodes): Nodes {
    match front
    case Nil => back
    case Cons(head, tail) => Cons(head, Append(tail, back))
  }

  lemma AppendAssociative(a: Nodes, b: Nodes, c: Nodes)
    ensures Append(Append(a, b), c) == Append(a, Append(b, c))
  {
  }

  lemma AppendNil(a: Nodes)
    ensures Append(a, Nil) == a
  {
  }

  /** Termination measure: a sequence counts its parts twice because it is taken apart one part at a time. */
  function Size(node: Node): (n: nat)
    ensures n >= 1
  {
    match node
    case Sequence(parts) => 1 + 2 * Sizes(parts)
    case Select(options) => 1 + Sizes(options)
    case Capture(_, content) => 3 + 2 * Sizes(content)
    case Repeat(_, _, _, content) => 3 + Sizes(content)
    case _ => 1
  }

  function Sizes(nodes: Nodes): nat {
    match nodes
    case Nil => 0
    case Cons(head, tail) => Size(head) + Sizes(tail)
  }

  lemma AppendSizes(front: Nodes, back: Nodes)
    ensures Sizes(Append(front, back)) == Sizes(front) + Sizes(back)
  {
  }

  /** Does the stack end in the mark of a cycle? */
  predicate EndsCycle(k: Nodes) {
    match k
    case Nil => false
    case Cons(head, tail) => if tail.Nil? then head.EndCycleMark? else EndsCycle(tail)
  }

  lemma AppendEndsCycle(front: Nodes, back: Nodes)
    requires EndsCycle(back)
    ensures EndsCycle(Append(front, back))
  {
  }

  /** The stack after taking the first part off a sequence. */
  function Split(parts: Nodes, tail: Nodes): Nodes
    requires parts.Cons?
  {
    Cons(parts.head, if parts.tail.Cons? then Cons(Sequence(parts.tail), tail) else tail)
  }

  lemma SplitSizes(parts: Nodes, tail: Nodes)
    requires parts.Cons?
    ensures Sizes(Split(parts, tail)) < Sizes(Cons(Sequence(parts), tail))
    ensures tail.Cons? ==> (EndsCycle(Split(parts, tail)) <==> EndsCycle(tail))
  {
    assert Sizes(parts) == Size(parts.head) + Sizes(parts.tail);
    if parts.tail.Cons? {
      var rest := Cons(Sequence(parts.tail), tail);
      assert Sizes(rest) == 1 + 2 * Sizes(parts.tail) + Sizes(tail);
      assert Sizes(Cons(parts.head, rest)) == Size(parts.head) + Sizes(rest);
    }
  }

  lemma SelectSizes(options: Nodes, tail: Nodes)
    requires options.Cons?
    ensures Sizes(Cons(options.head, tail)) < Sizes(Cons(Select(options), tail))
    ensures Sizes(Cons(Select(options.tail), tail)) < Sizes(Cons(Select(options), tail))
  {
    assert Sizes(options) == Size(options.head) + Sizes(options.tail);
    assert Size(Select(options.tail)) == 1 + Sizes(options.tail);
  }

  function Open(id: nat, content: Nodes, tail: Nodes): Nodes {
    Cons(Sequence(content), Cons(NumericMark(id), tail))
  }

  lemma OpenSizes(id: nat, content: Nodes, tail: Nodes)
    ensures Sizes(Open(id, content, tail)) < Sizes(Cons(Capture(id, content), tail))
    ensures EndsCycle(tail) ==> EndsCycle(Open(id, content, tail))
  {
    assert Sizes(Cons(NumericMark(id), tail)) == 1 + Sizes(tail);
  }

  /** A node of a pattern: no evaluator mark occurs in it. */
  predicate Plain(node: Node) {
    match node
    case Sequence(parts) => AllPlain(parts)
    case Select(options) => AllPlain(options)
    case Capture(_, content) => AllPlain(content)
    case Repeat(_, _, _, content) => AllPlain(content)
    case StartMark => false
    case NumericMark(_) => false
    case EndMark => false
    case EndCycleMark => false
    case Accept => false
    case _ => true
  }

  predicate AllPlain(nodes: Nodes) {
    match nodes
    case Nil => true
    case Cons(head, tail) => Plain(head) && AllPlain(tail)
  }

  /** One iteration of a repeat is evaluated on its own, ended by this mark. */
  function Cycle(content: Nodes): Nodes {
    Append(content, Cons(EndCycleMark, Nil))
  }

  /** `less_than<Limit>(i)`: no limit (0) means never. */
  predicate LessThan(limit: nat, i: nat) {
    limit != 0 && i < limit
  }

  /** `less_than_or_infinite<Limit>(i)`: no limit (0) means always. */
  predicate LessThanOrInfinite(limit: nat, i: nat) {
    limit == 0 || i < limit
  }
}
