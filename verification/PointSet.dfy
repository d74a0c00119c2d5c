/** `point_set`: a fixed array of intervals kept sorted by insertion, behind the collision test. */
module PointSets {
  import opened RegexSyntax
  import opened FirstSets

  /** `calculate_size_of_first`: how many points the array is given room for. */
  function SizeOfItem(item: Item): nat {
    match item
    case Enumeration(values) => |values|
    case CharSet(items) => SizeOfItems(items)
    case NegativeSet(items) => 1 + SizeOfItems(items)
    case _ => 1
  }

  function SizeOfItems(items: Items): nat {
    match items
    case NoItem => 0
    case MoreItems(item, rest) => SizeOfItem(item) + SizeOfItems(rest)
  }

  function SizeOfLeads(l: seq<Lead>): nat {
    if l == [] then 0 else (if l[0].Of? then SizeOfItem(l[0].item) else 1) + SizeOfLeads(l[1..])
  }

  lemma {:induction false} GapsFit(item: Item, start: int)
    ensures |Gaps(item, start).0| <= SizeOfItem(item)
  {
    match item
    case Enumeration(values) => GapsOfValuesFit(values, start);
    case CharSet(items) => GapsOfItemsFit(items, start);
    case _ =>
  }

  lemma {:induction false} GapsOfValuesFit(values: seq<Code>, start: int)
    ensures |GapsOfValues(values, start).0| <= |values|
  {
    if values != [] { GapsOfValuesFit(values[1..], GapBefore(values[0], values[0], start).1); }
  }

  lemma {:induction false} GapsOfItemsFit(items: Items, start: int)
    ensures |GapsOfItems(items, start).0| <= SizeOfItems(items)
  {
    if items.MoreItems? {
      GapsFit(items.first, start);
      GapsOfItemsFit(items.rest, Gaps(items.first, start).1);
    }
  }

  /** The callbacks of a negative set, one more than its items at most, fit too. */
  lemma {:induction false} IntervalsFit(item: Item)
    ensures |Intervals(item)| <= SizeOfItem(item)
  {
    match item
    case CharSet(items) => IntervalsOfFit(items);
    case NegativeSet(items) => GapsOfItemsFit(items, INT64_MIN);
    case _ =>
  }

  lemma {:induction false} IntervalsOfFit(items: Items)
    ensures |IntervalsOf(items)| <= SizeOfItems(items)
  {
    if items.MoreItems? { IntervalsFit(items.first); IntervalsOfFit(items.rest); }
  }

  ghost predicate Sorted(points: seq<Interval>) {
    forall i, j | 0 <= i < j < |points| :: points[i].low <= points[j].low
  }

  lemma {:induction false} LowerBoundIs(points: seq<Interval>, low: int, n: nat)
    requires n <= |points| && (forall i | 0 <= i < n :: points[i].low < low)
    requires n < |points| ==> points[n].low >= low
    ensures LowerBound(points, low) == n
  {
    if n > 0 { LowerBoundIs(points[1..], low, n - 1); }
  }

  lemma {:induction false} LowerBoundSplits(points: seq<Interval>, low: int)
    ensures var n := LowerBound(points, low);
      (forall i | 0 <= i < n :: points[i].low < low) && (n < |points| ==> points[n].low >= low)
  {
    if points != [] && points[0].low < low {
      LowerBoundSplits(points[1..], low);
      var n := LowerBound(points, low);
      forall i | 0 <= i < n ensures points[i].low < low {
        if i > 0 { assert points[i] == points[1..][i - 1]; }
      }
    }
  }

  lemma InsertSorted(points: seq<Interval>, x: Interval)
    requires Sorted(points)
    ensures Sorted(Insert(points, x))
  {
    LowerBoundSplits(points, x.low);
  }

  class PointSet {
    const points: array<Interval>
    var used: nat

    ghost predicate Valid()
      reads this, points
    {
      used <= points.Length && Sorted(points[..used])
    }

    ghost function Contents(): seq<Interval>
      reads this, points
      requires Valid()
    {
      points[..used]
    }

    constructor (capacity: nat)
      ensures Valid() && fresh(points) && Contents() == [] && points.Length == capacity + 1
    {
      points := new Interval[capacity + 1](_ => Interval(0, 0));
      used := 0;
    }

    /** A binary search that returns its probe; at the end that is the position it looked for. */
    method FindLowerBound(low: int) returns (it: nat)
      requires Valid()
      ensures it == LowerBound(Contents(), low)
    {
      var first, count := 0, used;
      it := first;
      while count != 0
        invariant 0 <= first <= first + count <= used
        invariant forall i | 0 <= i < first :: points[i].low < low
        invariant forall i | first + count <= i < used :: points[i].low >= low
        invariant count == 0 ==> it == first
      {
        var step := count / 2;
        it := first + step;
        if points[it].low < low {
          it := it + 1;
          first := it;
          count := count - (step + 1);
        } else {
          count := step;
        }
      }
      LowerBoundIs(Contents(), low, it);
    }

    /** Shifts everything from the insertion point on by one place. */
    method ShiftIn(x: Interval, start: nat)
      requires start <= used < points.Length
      modifies points
      ensures points[..used + 1] == old(points[..start]) + [x] + old(points[start..used])
    {
      ghost var before := points[..used];
      ghost var after := before[..start] + [x] + before[start..];
      var obj, it := x, start;
      while it != used
        invariant start <= it <= used && obj == after[it]
        invariant forall i | 0 <= i < it :: points[i] == after[i]
        invariant forall i | it <= i < used :: points[i] == before[i] == after[i + 1]
      {
        var tmp := points[it];
        points[it] := obj;
        obj := tmp;
        it := it + 1;
      }
      points[it] := obj;
      assert before[..start] == old(points[..start]) && before[start..] == old(points[start..used]);
      assert points[..used + 1] == after;
    }

    method InsertPoint(x: Interval)
      requires Valid() && used < points.Length
      modifies this, points
      ensures Valid() && used == old(used) + 1
      ensures Contents() == Insert(old(Contents()), x)
    {
      ghost var before := Contents();
      var start := FindLowerBound(x.low);
      InsertSorted(before, x);
      ShiftIn(x, start);
      assert before[..start] == old(points[..start]) && before[start..] == old(points[start..used]);
      used := used + 1;
    }

    method InsertEach(xs: seq<Interval>)
      requires Valid() && used + |xs| < points.Length
      modifies this, points
      ensures Valid() && used == old(used) + |xs|
      ensures Contents() == InsertAll(old(Contents()), xs)
    {
      for i := 0 to |xs|
        invariant Valid() && used == old(used) + i
        invariant InsertAll(Contents(), xs[i..]) == InsertAll(old(Contents()), xs)
      {
        assert xs[i] == xs[i..][0] && xs[i + 1..] == xs[i..][1..];
        InsertPoint(xs[i]);
      }
    }

    method Populate(l: seq<Lead>)
      requires Valid() && used + SizeOfLeads(l) < points.Length
      modifies this, points
      ensures Valid() && Contents() == FirstSets.Populate(old(Contents()), l)
    {
      var i := 0;
      while i < |l|
        invariant i <= |l| && Valid() && used + SizeOfLeads(l[i..]) < points.Length
        invariant FirstSets.Populate(Contents(), l[i..]) == FirstSets.Populate(old(Contents()), l)
      {
        assert l[i] == l[i..][0] && l[i + 1..] == l[i..][1..];
        match l[i] {
          case CanBeAnything =>
            points[0] := EVERYTHING;
            used := 1;
            assert points[..used] == [EVERYTHING];
          case Of(item) =>
            IntervalsFit(item);
            InsertEach(Intervals(item));
        }
        i := i + 1;
      }
    }

    method Check(low: int, high: int) returns (hit: bool)
      requires Valid()
      ensures hit <==> MeetsSome(Contents(), Interval(low, high))
    {
      var i := 0;
      while i < used
        invariant i <= used
        invariant forall j | 0 <= j < i :: !points[j].Meets(Interval(low, high))
      {
        var r := points[i];
        if r.low <= low <= r.high {
          assert Contents()[i].Meets(Interval(low, high));
          return true;
        } else if r.low <= high <= r.high {
          assert Contents()[i].Meets(Interval(low, high));
          return true;
        } else if low <= r.low <= high {
          assert Contents()[i].Meets(Interval(low, high));
          return true;
        } else if low <= r.high <= high {
          assert Contents()[i].Meets(Interval(low, high));
          return true;
        }
        i := i + 1;
      }
      return false;
    }

    /** Does some interval of the list meet some point? */
    method CheckEach(xs: seq<Interval>) returns (hit: bool)
      requires Valid()
      ensures hit <==> exists x | x in xs :: MeetsSome(Contents(), x)
    {
      hit := false;
      for i := 0 to |xs|
        invariant hit <==> exists x | x in xs[..i] :: MeetsSome(Contents(), x)
      {
        var one := Check(xs[i].low, xs[i].high);
        assert xs[..i + 1] == xs[..i] + [xs[i]];
        hit := hit || one;
      }
      assert xs[..|xs|] == xs;
    }

    method CheckLeads(l: seq<Lead>) returns (hit: bool)
      requires Valid()
      ensures hit <==> exists lead | lead in l :: CheckLead(Contents(), lead)
    {
      hit := false;
      for i := 0 to |l|
        invariant hit <==> exists lead | lead in l[..i] :: CheckLead(Contents(), lead)
      {
        var one: bool;
        match l[i] {
          case CanBeAnything => one := used > 0;
          case Of(item) => one := CheckEach(Intervals(item));
        }
        assert one <==> CheckLead(Contents(), l[i]);
        assert l[..i + 1] == l[..i] + [l[i]];
        hit := hit || one;
      }
      assert l[..|l|] == l;
    }
  }

  /** The array never overflows, and the answer is the specification's. */
  method CollidesInPlace(a: seq<Lead>, b: seq<Lead>) returns (hit: bool)
    ensures hit == Collides(a, b)
  {
    var points := new PointSet(Capacity(a));
    points.Populate(a);
    hit := points.CheckLeads(b);
  }

  function Capacity(l: seq<Lead>): nat {
    SizeOfLeads(l)
  }
}
