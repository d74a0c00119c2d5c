/** Sequences put one behind the other, and finding the parts again. */
module Concatenation {
  import opened Arithmetic

  function Flat<T>(parts: seq<seq<T>>): seq<T> {
    if parts == [] then [] else parts[0] + Flat(parts[1..])
  }

  ghost predicate AllOf<T>(parts: seq<seq<T>>, width: nat) {
    forall p | p in parts :: |p| == width
  }

  lemma NextMultiple(n: nat, width: nat)
    requires n > 0
    ensures n * width == width + (n - 1) * width
  {
  }

  lemma {:induction false} FlatSize<T>(parts: seq<seq<T>>, width: nat)
    requires AllOf(parts, width)
    ensures |Flat(parts)| == |parts| * width
  {
    if parts != [] {
      FlatSize(parts[1..], width);
      NextMultiple(|parts|, width);
    }
  }

  /** The parts of what is made of parts of one width. */
  lemma {:induction false} FlatAt<T>(parts: seq<seq<T>>, width: nat, i: nat)
    requires AllOf(parts, width) && i < |parts|
    ensures 0 <= i * width && i * width + width <= |Flat(parts)|
    ensures Flat(parts)[i * width..i * width + width] == parts[i]
  {
    if i > 0 {
      FlatAt(parts[1..], width, i - 1);
      NextMultiple(i, width);
      Within(parts[0], Flat(parts[1..]), [], Flat(parts), (i - 1) * width, width);
    }
  }

  lemma {:induction false} FlatAppend<T>(parts: seq<seq<T>>, last: seq<T>)
    ensures Flat(parts + [last]) == Flat(parts) + last
  {
    if parts == [] {
      assert parts + [last] == [last] && Flat([last][1..]) == [];
    } else {
      assert (parts + [last])[1..] == parts[1..] + [last];
      FlatAppend(parts[1..], last);
    }
  }

  lemma Within<T>(front: seq<T>, middle: seq<T>, back: seq<T>, all: seq<T>, at: nat, n: nat)
    requires all == front + middle + back && at + n <= |middle|
    ensures all[|front| + at..|front| + (at + n)] == middle[at..at + n]
  {
  }

  lemma FlatWithin<T>(front: seq<T>, parts: seq<seq<T>>, rest: seq<T>, width: nat, i: nat, offset: nat)
    requires AllOf(parts, width) && i < |parts| && offset == |front| + i * width
    ensures offset + width <= |front + Flat(parts) + rest|
    ensures (front + Flat(parts) + rest)[offset..offset + width] == parts[i]
  {
    var at := offset - |front|;
    FlatAt(parts, width, i);
    Within(front, Flat(parts), rest, front + Flat(parts) + rest, at, width);
  }

  lemma Associates<T>(a: seq<T>, b: seq<T>, c: seq<T>)
    ensures (a + b) + c == a + (b + c)
  {
  }

  lemma Regroup<T>(a: seq<T>, b: seq<T>, c: seq<T>, d: seq<T>)
    ensures a + b + c + d == a + (b + c + d)
  {
  }

  lemma ThreeParts<T>(a: seq<T>, b: seq<T>, c: seq<T>)
    ensures var all := a + b + c;
      all[..|a|] == a && all[|a|..|a| + |b|] == b && all[|a| + |b|..] == c
  {
  }
}
