/** The characters a continuation can start with, and the test that two such sets are disjoint. */
module FirstSets {
  import opened RegexSyntax

  /** An element of a first set. */
  datatype Lead = Of(item: Item) | CanBeAnything

  function Spread(items: Items): seq<Lead> {
    match items
    case NoItem => []
    case MoreItems(item, rest) => [Of(item)] + Spread(rest)
  }

  function Characters(values: seq<Code>): seq<Lead> {
    seq(|values|, i requires 0 <= i < |values| => Of(Character(values[i])))
  }

  function First(l: seq<Lead>, k: Nodes): seq<Lead>
    decreases Sizes(k)
  {
    match k
    case Nil => l
    case Cons(head, tail) =>
      match head
      case One(CharSet(items)) => l + Spread(items)
      case One(Enumeration(values)) => l + Characters(values)
      case One(item) => l + [Of(item)]
      case AnyChar => [CanBeAnything]
      case Text(chars) => if |chars| > 0 then l + [Of(Character(chars[0]))] else First(l, tail)
      case Sequence(parts) =>
        AppendSizes(parts, tail); assert Sizes(k) == 1 + 2 * Sizes(parts) + Sizes(tail);
        First(l, Append(parts, tail))
      case Select(options) =>
        if options.Nil? then l
        else
          SelectSizes(options, tail);
          First(First(l, Cons(options.head, tail)), Cons(Select(options.tail), tail))
      case Capture(_, content) =>
        AppendSizes(content, tail); assert Sizes(k) == 3 + 2 * Sizes(content) + Sizes(tail);
        First(l, Append(content, tail))
      case Repeat(mode, min, max, content) =>
        AppendSizes(content, tail); assert Sizes(k) == 3 + Sizes(content) + Sizes(tail);
        if min == 0 && max == 1 && !mode.Possessive? then First(First(l, Append(content, tail)), tail)
        else if min == 0 then First(First(l, tail), Append(content, tail))
        else First(l, Append(content, tail))
      case AssertEnd => l
      case EndMark => l
      case EndCycleMark => l
      case Accept => l
      case Empty => First(l, tail)
      case AssertBegin => First(l, tail)
      case NumericMark(_) => First(l, tail)
      case StartMark => First(l, tail)   // only ever the first node of a stack; the source has no overload for it
      case Reject => First(l, tail)      // likewise
  }

  predicate InLead(lead: Lead, c: Char) {
    match lead
    case CanBeAnything => true
    case Of(item) => MatchItem(item, c)
  }

  /** A character that the set allows. */
  predicate Allows(l: seq<Lead>, c: Char) {
    exists lead | lead in l :: InLead(lead, c)
  }

  // ----- intervals -----

  datatype Interval = Interval(low: int, high: int) {
    predicate Has(c: int) {
      low <= c <= high
    }

    /** `point_set::check(low, high)` against one point. */
    predicate Meets(other: Interval) {
      || low <= other.low <= high
      || low <= other.high <= high
      || other.low <= low <= other.high
      || other.low <= high <= other.high
    }
  }

  predicate SomeHas(points: seq<Interval>, c: int) {
    exists x | x in points :: x.Has(c)
  }

  /** The items that can stand in a negative set: the source has no overload for a negative set inside one. */
  predicate Positive(item: Item) {
    match item
    case CharSet(items) => AllPositive(items)
    case NegativeSet(_) => false
    case _ => true
  }

  predicate AllPositive(items: Items) {
    match items
    case NoItem => true
    case MoreItems(item, rest) => Positive(item) && AllPositive(rest)
  }

  predicate Expressible(item: Item) {
    match item
    case CharSet(items) => AllExpressible(items)
    case NegativeSet(items) => AllPositive(items)
    case _ => true
  }

  predicate AllExpressible(items: Items) {
    match items
    case NoItem => true
    case MoreItems(item, rest) => Expressible(item) && AllExpressible(rest)
  }

  /** What `negative_helper` hands to its callback for one item of a negative set, and where it goes on from. */
  function Gaps(item: Item, start: int): (seq<Interval>, int) {
    match item
    case Character(v) => GapBefore(v, v, start)
    case CharRange(low, high) => GapBefore(low, high, start)
    case Enumeration(values) => GapsOfValues(values, start)
    case CharSet(items) => GapsOfItems(items, start)
    case NegativeSet(_) => ([], start)   // no such overload, see Positive
  }

  function GapBefore(low: Code, high: Code, start: int): (seq<Interval>, int) {
    (if low != INT64_MIN && start < low then [Interval(start, low - 1)] else [],
     if high != INT64_MAX then high + 1 else high)
  }

  function GapsOfValues(values: seq<Code>, start: int): (seq<Interval>, int) {
    if values == [] then ([], start)
    else
      var (gaps, next) := GapBefore(values[0], values[0], start);
      var (rest, end) := GapsOfValues(values[1..], next);
      (gaps + rest, end)
  }

  function GapsOfItems(items: Items, start: int): (seq<Interval>, int) {
    match items
    case NoItem => ([], start)
    case MoreItems(item, rest) =>
      var (gaps, next) := Gaps(item, start);
      var (more, end) := GapsOfItems(rest, next);
      (gaps + more, end)
  }

  /** All the callbacks for a negative set. */
  function Complement(items: Items): seq<Interval> {
    var (gaps, end) := GapsOfItems(items, INT64_MIN);
    gaps + if end < INT64_MAX then [Interval(end, INT64_MAX)] else []
  }

  /** The intervals that `populate` inserts for an item, in that order.  An enumeration derives from the set of its
      characters, so that the overload for sets takes it: see EnumerationIsSet. */
  function Intervals(item: Item): seq<Interval> {
    match item
    case Character(v) => [Interval(v, v)]
    case CharRange(low, high) => [Interval(low, high)]
    case Enumeration(values) => seq(|values|, i requires 0 <= i < |values| => Interval(values[i], values[i]))
    case CharSet(items) => IntervalsOf(items)
    case NegativeSet(items) => Complement(items)
  }

  function IntervalsOf(items: Items): seq<Interval> {
    match items
    case NoItem => []
    case MoreItems(item, rest) => Intervals(item) + IntervalsOf(rest)
  }

  /** The characters of an enumeration as the items of a set, its base class in the source. */
  function BaseOf(values: seq<Code>): Items {
    if values == [] then NoItem else MoreItems(Character(values[0]), BaseOf(values[1..]))
  }

  /** An enumeration matches what its base matches, puts in the same intervals and leaves the same gaps. */
  lemma {:induction false} EnumerationIsSet(values: seq<Code>, start: int, c: Code)
    ensures c in values <==> MatchSome(BaseOf(values), c)
    ensures Intervals(Enumeration(values)) == IntervalsOf(BaseOf(values))
    ensures GapsOfValues(values, start) == GapsOfItems(BaseOf(values), start)
    decreases |values|
  {
    if values != [] {
      var first := Character(values[0]);
      EnumerationIsSet(values[1..], Gaps(first, start).1, c);
      assert Intervals(Enumeration(values)) == Intervals(first) + Intervals(Enumeration(values[1..]));
    }
  }

  // ----- the point set, as a sorted sequence -----

  /** Where a point goes: before the first one that is not lower. */
  function LowerBound(points: seq<Interval>, low: int): (n: nat)
    ensures n <= |points|
  {
    if points == [] || points[0].low >= low then 0 else 1 + LowerBound(points[1..], low)
  }

  function Insert(points: seq<Interval>, x: Interval): seq<Interval> {
    var n := LowerBound(points, x.low);
    points[..n] + [x] + points[n..]
  }

  function InsertAll(points: seq<Interval>, xs: seq<Interval>): seq<Interval>
    decreases |xs|
  {
    if xs == [] then points else InsertAll(Insert(points, xs[0]), xs[1..])
  }

  const EVERYTHING := Interval(INT64_MIN, INT64_MAX)

  /** `populate` overwrites the first point and forgets the others when anything is possible. */
  function Populate(points: seq<Interval>, l: seq<Lead>): seq<Interval>
    decreases |l|
  {
    if l == [] then points
    else
      match l[0]
      case CanBeAnything => Populate([EVERYTHING], l[1..])
      case Of(item) => Populate(InsertAll(points, Intervals(item)), l[1..])
  }

  predicate MeetsSome(points: seq<Interval>, x: Interval) {
    exists i | 0 <= i < |points| :: points[i].Meets(x)
  }

  predicate CheckItem(points: seq<Interval>, item: Item) {
    exists x | x in Intervals(item) :: MeetsSome(points, x)
  }

  predicate CheckLead(points: seq<Interval>, lead: Lead) {
    match lead
    case CanBeAnything => |points| > 0
    case Of(item) => CheckItem(points, item)
  }

  predicate Collides(a: seq<Lead>, b: seq<Lead>) {
    var points := Populate([], a);
    exists lead | lead in b :: CheckLead(points, lead)
  }

  // ----- negative sets -----

  lemma {:induction false} GapBeforeCovers(low: Code, high: Code, start: int, c: int)
    requires INT64_MIN <= start && c < INT64_MAX
    ensures var (gaps, end) := GapBefore(low, high, start);
      start <= c < end && !(low <= c <= high) ==> SomeHas(gaps, c)
  {
    var (gaps, end) := GapBefore(low, high, start);
    if start <= c < end && !(low <= c <= high) {
      assert gaps == [Interval(start, low - 1)] && gaps[0].Has(c);
    }
  }

  /** Everything below the running start that no item matched is in some callback: the items need not be sorted. */
  lemma {:induction false} GapsCover(item: Item, start: int, c: Code)
    requires Positive(item) && INT64_MIN <= start <= INT64_MAX && c != INT64_MAX
    ensures var (gaps, end) := Gaps(item, start);
      && INT64_MIN <= end <= INT64_MAX
      && (start <= c < end && !MatchItem(item, c) ==> SomeHas(gaps, c))
  {
    match item
    case Character(v) => GapBeforeCovers(v, v, start, c);
    case CharRange(low, high) => GapBeforeCovers(low, high, start, c);
    case Enumeration(values) => GapsOfValuesCover(values, start, c);
    case CharSet(items) => GapsOfItemsCover(items, start, c);
  }

  lemma {:induction false} GapsOfValuesCover(values: seq<Code>, start: int, c: Code)
    requires INT64_MIN <= start <= INT64_MAX && c != INT64_MAX
    ensures var (gaps, end) := GapsOfValues(values, start);
      && INT64_MIN <= end <= INT64_MAX
      && (start <= c < end && c !in values ==> SomeHas(gaps, c))
  {
    if values != [] {
      var (gaps, next) := GapBefore(values[0], values[0], start);
      var (rest, end) := GapsOfValues(values[1..], next);
      GapBeforeCovers(values[0], values[0], start, c);
      GapsOfValuesCover(values[1..], next, c);
      SomeHasConcat(gaps, rest, c);
    }
  }

  lemma {:induction false} GapsOfItemsCover(items: Items, start: int, c: Code)
    requires AllPositive(items) && INT64_MIN <= start <= INT64_MAX && c != INT64_MAX
    ensures var (gaps, end) := GapsOfItems(items, start);
      && INT64_MIN <= end <= INT64_MAX
      && (start <= c < end && !MatchSome(items, c) ==> SomeHas(gaps, c))
  {
    if items.MoreItems? {
      var (gaps, next) := Gaps(items.first, start);
      var (rest, end) := GapsOfItems(items.rest, next);
      GapsCover(items.first, start, c);
      GapsOfItemsCover(items.rest, next, c);
      SomeHasConcat(gaps, rest, c);
    }
  }

  lemma SomeHasConcat(a: seq<Interval>, b: seq<Interval>, c: int)
    ensures SomeHas(a + b, c) <==> SomeHas(a, c) || SomeHas(b, c)
  {
  }

  /** Every 64-bit value that the set matches is in a callback, with the possible exception of the largest. */
  lemma {:induction false} ComplementCovers(items: Items, c: Code)
    requires AllPositive(items) && !MatchSome(items, c) && c != INT64_MAX
    ensures SomeHas(Complement(items), c)
  {
    var (gaps, end) := GapsOfItems(items, INT64_MIN);
    GapsOfItemsCover(items, INT64_MIN, c);
    if c >= end {
      var last := Interval(end, INT64_MAX);
      assert Complement(items) == gaps + [last] && last.Has(c);
      assert last in Complement(items);
    } else {
      SomeHasConcat(gaps, if end < INT64_MAX then [Interval(end, INT64_MAX)] else [], c);
    }
  }

  /** The values of the item come one behind the other, from some value on. */
  predicate Rising(item: Item, start: int) {
    match item
    case Character(v) => start <= v < INT64_MAX
    case CharRange(low, high) => start <= low <= high < INT64_MAX
    case Enumeration(values) => RisingValues(values, start)
    case CharSet(items) => RisingItems(items, start)
    case NegativeSet(_) => false
  }

  predicate RisingValues(values: seq<Code>, start: int) {
    values == [] || (start <= values[0] < INT64_MAX && RisingValues(values[1..], values[0] + 1))
  }

  predicate RisingItems(items: Items, start: int) {
    match items
    case NoItem => true
    case MoreItems(item, rest) => Rising(item, start) && RisingItems(rest, Gaps(item, start).1)
  }

  /** Between the start and the end, the callbacks hold exactly what is not matched. */
  ghost predicate Tight(gaps: seq<Interval>, start: int, end: int, matched: bool, c: Code) {
    start <= end <= INT64_MAX && (matched ==> start <= c < end) && (SomeHas(gaps, c) <==> start <= c < end && !matched)
  }

  lemma GapBeforeIsTight(low: Code, high: Code, start: int, c: Code)
    requires INT64_MIN <= start <= low <= high < INT64_MAX
    ensures var (gaps, end) := GapBefore(low, high, start); Tight(gaps, start, end, low <= c <= high, c)
  {
    var (gaps, end) := GapBefore(low, high, start);
    if gaps != [] { assert gaps == [Interval(start, low - 1)] && (gaps[0].Has(c) <==> SomeHas(gaps, c)); }
  }

  lemma TightConcat(a: seq<Interval>, b: seq<Interval>, start: int, middle: int, end: int, first: bool, second: bool, c: Code)
    requires Tight(a, start, middle, first, c) && Tight(b, middle, end, second, c)
    ensures Tight(a + b, start, end, first || second, c)
  {
    SomeHasConcat(a, b, c);
  }

  lemma {:induction false} GapsAreTight(item: Item, start: int, c: Code)
    requires INT64_MIN <= start <= INT64_MAX && Rising(item, start)
    ensures var (gaps, end) := Gaps(item, start); Tight(gaps, start, end, MatchItem(item, c), c)
  {
    match item
    case Character(v) => GapBeforeIsTight(v, v, start, c);
    case CharRange(low, high) => GapBeforeIsTight(low, high, start, c);
    case Enumeration(values) => GapsOfValuesAreTight(values, start, c);
    case CharSet(items) => GapsOfItemsAreTight(items, start, c);
  }

  lemma {:induction false} GapsOfValuesAreTight(values: seq<Code>, start: int, c: Code)
    requires INT64_MIN <= start <= INT64_MAX && RisingValues(values, start)
    ensures var (gaps, end) := GapsOfValues(values, start); Tight(gaps, start, end, c in values, c)
  {
    if values != [] {
      var (gaps, next) := GapBefore(values[0], values[0], start);
      var (rest, end) := GapsOfValues(values[1..], next);
      GapBeforeIsTight(values[0], values[0], start, c);
      GapsOfValuesAreTight(values[1..], next, c);
      TightConcat(gaps, rest, start, next, end, c == values[0], c in values[1..], c);
    }
  }

  lemma {:induction false} GapsOfItemsAreTight(items: Items, start: int, c: Code)
    requires INT64_MIN <= start <= INT64_MAX && RisingItems(items, start)
    ensures var (gaps, end) := GapsOfItems(items, start); Tight(gaps, start, end, MatchSome(items, c), c)
  {
    if items.MoreItems? {
      var (gaps, next) := Gaps(items.first, start);
      var (rest, end) := GapsOfItems(items.rest, next);
      GapsAreTight(items.first, start, c);
      GapsOfItemsAreTight(items.rest, next, c);
      TightConcat(gaps, rest, start, next, end, MatchItem(items.first, c), MatchSome(items.rest, c), c);
    }
  }

  /** If the values of a negative set come in order, its callbacks hold exactly the 64-bit values that it matches. */
  lemma {:induction false} ComplementIsTight(items: Items, c: Code)
    requires RisingItems(items, INT64_MIN)
    ensures SomeHas(Complement(items), c) <==> MatchItem(NegativeSet(items), c) && (c != INT64_MAX || GapsOfItems(items, INT64_MIN).1 < INT64_MAX)
  {
    var (gaps, end) := GapsOfItems(items, INT64_MIN);
    GapsOfItemsAreTight(items, INT64_MIN, c);
    if end < INT64_MAX {
      var last := Interval(end, INT64_MAX);
      assert last in [last] && (SomeHas([last], c) <==> last.Has(c));
      SomeHasConcat(gaps, [last], c);
    } else {
      assert Complement(items) == gaps + [] == gaps;
    }
  }

  /** The upper end of the last value or range in an item, if it has any. */
  function LastOf(item: Item): Bound {
    match item
    case Character(v) => Upper(v)
    case CharRange(_, high) => Upper(high)
    case Enumeration(values) => if values == [] then Unbounded else Upper(values[|values| - 1])
    case CharSet(items) => LastOfItems(items)
    case NegativeSet(_) => Unbounded
  }

  datatype Bound = Unbounded | Upper(value: Code)

  function LastOfItems(items: Items): Bound {
    match items
    case NoItem => Unbounded
    case MoreItems(item, rest) => if LastOfItems(rest).Upper? then LastOfItems(rest) else LastOf(item)
  }

  /** Where the running start is behind them. */
  function Behind(last: Bound, start: int): int {
    match last
    case Unbounded => start
    case Upper(v) => if v != INT64_MAX then v + 1 else v
  }

  /** The callbacks within a set stay below the largest value, and the running start ends behind the last item. */
  lemma {:induction false} GapsEnd(item: Item, start: int)
    requires Positive(item)
    ensures Gaps(item, start).1 == Behind(LastOf(item), start) && !SomeHas(Gaps(item, start).0, INT64_MAX)
  {
    match item
    case Character(v) =>
    case CharRange(low, high) =>
    case Enumeration(values) => GapsOfValuesEnd(values, start);
    case CharSet(items) => GapsOfItemsEnd(items, start);
  }

  lemma {:induction false} GapsOfValuesEnd(values: seq<Code>, start: int)
    ensures GapsOfValues(values, start).1 == Behind(LastOf(Enumeration(values)), start)
    ensures !SomeHas(GapsOfValues(values, start).0, INT64_MAX)
  {
    if values != [] {
      var (gaps, next) := GapBefore(values[0], values[0], start);
      GapsOfValuesEnd(values[1..], next);
      SomeHasConcat(gaps, GapsOfValues(values[1..], next).0, INT64_MAX);
    }
  }

  lemma {:induction false} GapsOfItemsEnd(items: Items, start: int)
    requires AllPositive(items)
    ensures GapsOfItems(items, start).1 == Behind(LastOfItems(items), start)
    ensures !SomeHas(GapsOfItems(items, start).0, INT64_MAX)
  {
    if items.MoreItems? {
      var (gaps, next) := Gaps(items.first, start);
      GapsEnd(items.first, start);
      GapsOfItemsEnd(items.rest, next);
      SomeHasConcat(gaps, GapsOfItems(items.rest, next).0, INT64_MAX);
    }
  }

  /** The largest value, which is no character, is left out exactly if the last item of the set ends with it or with the
      value before it. */
  lemma {:induction false} ComplementMissesMaximum(items: Items)
    requires AllPositive(items)
    ensures !SomeHas(Complement(items), INT64_MAX) <==>
      LastOfItems(items).Upper? && LastOfItems(items).value >= INT64_MAX - 1
  {
    var (gaps, end) := GapsOfItems(items, INT64_MIN);
    GapsOfItemsEnd(items, INT64_MIN);
    var closing := if end < INT64_MAX then [Interval(end, INT64_MAX)] else [];
    if end < INT64_MAX { assert closing[0].Has(INT64_MAX); }
    SomeHasConcat(gaps, closing, INT64_MAX);
  }

  // ----- what an item matches is in its intervals -----

  lemma {:induction false} IntervalsHold(item: Item, c: Char)
    requires Expressible(item) && MatchItem(item, c)
    ensures SomeHas(Intervals(item), c)
  {
    match item
    case Character(v) => assert Intervals(item)[0].Has(c);
    case CharRange(low, high) => assert Intervals(item)[0].Has(c);
    case Enumeration(values) =>
      var i :| 0 <= i < |values| && values[i] == c;
      assert Intervals(item)[i].Has(c);
    case CharSet(items) => IntervalsOfHold(items, c);
    case NegativeSet(items) => ComplementCovers(items, c);
  }

  lemma {:induction false} IntervalsOfHold(items: Items, c: Char)
    requires AllExpressible(items) && MatchSome(items, c)
    ensures SomeHas(IntervalsOf(items), c)
  {
    SomeHasConcat(Intervals(items.first), IntervalsOf(items.rest), c);
    if MatchItem(items.first, c) { IntervalsHold(items.first, c); } else { IntervalsOfHold(items.rest, c); }
  }

  // ----- the point set keeps what was put in -----

  lemma InsertKeeps(points: seq<Interval>, x: Interval)
    ensures multiset(Insert(points, x)) == multiset(points) + multiset{x}
  {
    var n := LowerBound(points, x.low);
    assert points == points[..n] + points[n..];
  }

  lemma {:induction false} InsertAllKeeps(points: seq<Interval>, xs: seq<Interval>)
    ensures multiset(InsertAll(points, xs)) == multiset(points) + multiset(xs)
    decreases |xs|
  {
    if xs != [] {
      InsertKeeps(points, xs[0]);
      InsertAllKeeps(Insert(points, xs[0]), xs[1..]);
      assert xs == [xs[0]] + xs[1..];
    }
  }

  lemma {:induction false} InsertAllHas(points: seq<Interval>, xs: seq<Interval>, c: int)
    ensures SomeHas(InsertAll(points, xs), c) <==> SomeHas(points, c) || SomeHas(xs, c)
  {
    InsertAllKeeps(points, xs);
    assert forall x :: x in InsertAll(points, xs) <==> x in multiset(InsertAll(points, xs));
    assert forall x :: x in points <==> x in multiset(points);
    assert forall x :: x in xs <==> x in multiset(xs);
  }

  predicate ExpressibleLead(lead: Lead) {
    lead.Of? ==> Expressible(lead.item)
  }

  predicate AllLeadsExpressible(l: seq<Lead>) {
    forall lead | lead in l :: ExpressibleLead(lead)
  }

  lemma {:induction false} PopulateHolds(points: seq<Interval>, l: seq<Lead>, c: Char)
    requires AllLeadsExpressible(l)
    requires SomeHas(points, c) || Allows(l, c)
    ensures SomeHas(Populate(points, l), c)
    decreases |l|
  {
    if l != [] {
      assert l[0] in l && forall lead | lead in l[1..] :: lead in l;
      var next := match l[0] case CanBeAnything => [EVERYTHING] case Of(item) => InsertAll(points, Intervals(item));
      match l[0] {
        case CanBeAnything => assert next[0].Has(c);
        case Of(item) =>
          InsertAllHas(points, Intervals(item), c);
          if MatchItem(item, c) {
            assert ExpressibleLead(l[0]);
            IntervalsHold(item, c);
          }
      }
      if !SomeHas(next, c) {
        var lead :| lead in l && InLead(lead, c);
        assert lead in l[1..];
      }
      PopulateHolds(next, l[1..], c);
    }
  }

  /** Two first sets with a character in common collide: no collision means they are disjoint. */
  lemma {:induction false} CommonCharacterCollides(a: seq<Lead>, b: seq<Lead>, c: Char)
    requires AllLeadsExpressible(a) && AllLeadsExpressible(b)
    requires Allows(a, c) && Allows(b, c)
    ensures Collides(a, b)
  {
    PopulateHolds([], a, c);
    var points := Populate([], a);
    var x :| x in points && x.Has(c);
    var i :| 0 <= i < |points| && points[i] == x;
    var lead :| lead in b && InLead(lead, c);
    if lead.Of? {
      assert ExpressibleLead(lead);
      IntervalsHold(lead.item, c);
      var y :| y in Intervals(lead.item) && y.Has(c);
      assert points[i].Meets(y);
      assert MeetsSome(points, y);
    }
    assert CheckLead(points, lead);
  }

  /** Intervals with a value in common meet.  For intervals that are not empty the four comparisons say exactly that; a
      reversed range makes an empty one. */
  lemma MeetsIsOverlap(x: Interval, y: Interval)
    ensures (exists c: int :: x.Has(c) && y.Has(c)) ==> x.Meets(y)
    ensures x.low <= x.high && y.low <= y.high ==> (x.Meets(y) <==> exists c: int :: x.Has(c) && y.Has(c))
  {
    if x.Meets(y) && x.low <= x.high && y.low <= y.high {
      var c := if x.low <= y.low then y.low else x.low;
      assert x.Has(c) && y.Has(c);
    }
  }
}
