/** Tuples that store their elements sorted by alignment and give them out in the order in which they were declared. */
module TupleLayout {
  import opened Arithmetic
  import opened Concatenation

  datatype Type = Type(name: string, alignment: nat, size: nat)

  /** A type with its place in the declaration. */
  datatype Indexed = Indexed(interface: nat, of: Type)

  function IndexedTypes(types: seq<Type>): (xs: seq<Indexed>)
    ensures |xs| == |types| && forall i | 0 <= i < |types| :: xs[i] == Indexed(i, types[i])
  {
    seq(|types|, i requires 0 <= i < |types| => Indexed(i, types[i]))
  }

  // ----- the sort -----

  /** What goes before the first element: everything that is aligned at least as strictly. */
  predicate Before(x: Indexed, pivot: Indexed) {
    x.of.alignment >= pivot.of.alignment
  }

  function Select(xs: seq<Indexed>, pivot: Indexed, before: bool): (r: seq<Indexed>)
    ensures |r| <= |xs|
  {
    if xs == [] then []
    else (if Before(xs[0], pivot) == before then [xs[0]] else []) + Select(xs[1..], pivot, before)
  }

  /** `mp_sort`: what goes before the first element, sorted, the element, and the rest, sorted. */
  function Sort(xs: seq<Indexed>): seq<Indexed>
    decreases |xs|
  {
    if xs == [] then []
    else Sort(Select(xs[1..], xs[0], true)) + [xs[0]] + Sort(Select(xs[1..], xs[0], false))
  }

  ghost predicate Sorted(xs: seq<Indexed>) {
    forall i, j | 0 <= i < j < |xs| :: xs[i].of.alignment >= xs[j].of.alignment
  }

  lemma {:induction false} SelectParts(xs: seq<Indexed>, pivot: Indexed)
    ensures multiset(Select(xs, pivot, true)) + multiset(Select(xs, pivot, false)) == multiset(xs)
  {
    if xs != [] {
      var x, rest := xs[0], xs[1..];
      var yes, no := multiset(Select(rest, pivot, true)), multiset(Select(rest, pivot, false));
      SelectParts(rest, pivot);
      assert xs == [x] + rest && multiset(xs) == multiset{x} + multiset(rest);
      if Before(x, pivot) {
        assert multiset(Select(xs, pivot, true)) == multiset{x} + yes;
      } else {
        assert multiset(Select(xs, pivot, false)) == multiset{x} + no;
      }
    }
  }

  lemma {:induction false} SelectMeets(xs: seq<Indexed>, pivot: Indexed, before: bool)
    ensures forall x | x in Select(xs, pivot, before) :: Before(x, pivot) == before
  {
    if xs != [] { SelectMeets(xs[1..], pivot, before); }
  }

  /** The sort permutes. */
  lemma {:induction false} SortPermutes(xs: seq<Indexed>)
    ensures multiset(Sort(xs)) == multiset(xs)
    decreases |xs|
  {
    if xs != [] {
      var pivot := xs[0];
      var front, back := Select(xs[1..], pivot, true), Select(xs[1..], pivot, false);
      SelectParts(xs[1..], pivot);
      SortPermutes(front);
      SortPermutes(back);
      assert multiset(Sort(xs)) == multiset(front) + multiset{pivot} + multiset(back);
      assert xs == [pivot] + xs[1..];
      assert multiset(xs) == multiset{pivot} + multiset(xs[1..]);
    }
  }

  lemma InBoth(a: seq<Indexed>, b: seq<Indexed>, x: Indexed)
    requires multiset(a) == multiset(b)
    ensures x in a <==> x in b
  {
    assert x in multiset(a) <==> x in multiset(b);
  }

  /** The sort puts stricter alignments first, although its predicate also holds of equal ones. */
  lemma {:induction false} SortSorts(xs: seq<Indexed>)
    ensures Sorted(Sort(xs))
    decreases |xs|
  {
    if xs != [] {
      var pivot := xs[0];
      var front, back := Select(xs[1..], pivot, true), Select(xs[1..], pivot, false);
      SortSorts(front);
      SortSorts(back);
      SelectMeets(xs[1..], pivot, true);
      SelectMeets(xs[1..], pivot, false);
      SortPermutes(front);
      SortPermutes(back);
      forall x | x in Sort(front) ensures Before(x, pivot) { InBoth(Sort(front), front, x); }
      forall x | x in Sort(back) ensures !Before(x, pivot) { InBoth(Sort(back), back, x); }
      JoinSorted(Sort(front), pivot, Sort(back));
    }
  }

  lemma JoinSorted(a: seq<Indexed>, pivot: Indexed, b: seq<Indexed>)
    requires Sorted(a) && Sorted(b)
    requires (forall x | x in a :: Before(x, pivot)) && (forall x | x in b :: !Before(x, pivot))
    ensures Sorted(a + [pivot] + b)
  {
    var all := a + [pivot] + b;
    forall i | 0 <= i < |all|
      ensures i < |a| ==> all[i] in a && all[i].of.alignment >= pivot.of.alignment
      ensures i > |a| ==> all[i] in b && all[i].of.alignment < pivot.of.alignment
    {
      if i < |a| { assert all[i] == a[i]; } else if i > |a| { assert all[i] == b[i - |a| - 1]; }
    }
    forall i, j | 0 <= i < j < |all|
      ensures all[i].of.alignment >= all[j].of.alignment
    {
      if j < |a| {
        assert all[i] == a[i] && all[j] == a[j];
      } else if i > |a| {
        assert all[i] == b[i - |a| - 1] && all[j] == b[j - |a| - 1];
      }
    }
  }

  /** Of equally strict alignments the one that came last goes first. */
  ghost predicate LastFirst(xs: seq<Indexed>) {
    forall i, j | 0 <= i < j < |xs| && xs[i].of.alignment == xs[j].of.alignment :: xs[i].interface > xs[j].interface
  }

  ghost predicate InOrder(xs: seq<Indexed>) {
    forall i, j | 0 <= i < j < |xs| :: xs[i].interface < xs[j].interface
  }

  lemma {:induction false} SelectInOrder(xs: seq<Indexed>, pivot: Indexed, before: bool)
    requires InOrder(xs)
    ensures InOrder(Select(xs, pivot, before)) && forall x | x in Select(xs, pivot, before) :: x in xs
  {
    if xs != [] {
      var rest := Select(xs[1..], pivot, before);
      SelectInOrder(xs[1..], pivot, before);
      forall j | 0 <= j < |rest|
        ensures xs[0].interface < rest[j].interface
      {
        assert rest[j] in rest && rest[j] in xs[1..];
        var k :| 0 <= k < |xs[1..]| && xs[1..][k] == rest[j];
        assert xs[k + 1] == rest[j];
      }
    }
  }

  lemma {:induction false} SortPutsLastFirst(xs: seq<Indexed>)
    requires InOrder(xs)
    ensures LastFirst(Sort(xs))
    decreases |xs|
  {
    if xs != [] {
      var pivot := xs[0];
      var front, back := Select(xs[1..], pivot, true), Select(xs[1..], pivot, false);
      SelectInOrder(xs[1..], pivot, true);
      SelectInOrder(xs[1..], pivot, false);
      SortPutsLastFirst(front);
      SortPutsLastFirst(back);
      SortPermutes(front);
      SortPermutes(back);
      SelectMeets(xs[1..], pivot, true);
      SelectMeets(xs[1..], pivot, false);
      forall x | x in Sort(front)
        ensures Before(x, pivot) && x.interface > pivot.interface
      {
        InBoth(Sort(front), front, x);
        assert x in front && x in xs[1..];
        var k :| 0 <= k < |xs[1..]| && xs[1..][k] == x;
        assert xs[k + 1] == x;
      }
      forall x | x in Sort(back) ensures !Before(x, pivot) { InBoth(Sort(back), back, x); }
      JoinLastFirst(Sort(front), pivot, Sort(back));
    }
  }

  lemma JoinLastFirst(a: seq<Indexed>, pivot: Indexed, b: seq<Indexed>)
    requires LastFirst(a) && LastFirst(b) && forall x | x in a :: Before(x, pivot) && x.interface > pivot.interface
    requires forall x | x in b :: !Before(x, pivot)
    ensures LastFirst(a + [pivot] + b)
  {
    var all := a + [pivot] + b;
    forall i | 0 <= i < |all|
      ensures i < |a| ==> all[i] == a[i] && all[i] in a
      ensures i == |a| ==> all[i] == pivot
      ensures i > |a| ==> all[i] == b[i - |a| - 1] && all[i] in b
    {
    }
  }

  // ----- the storage -----

  function Layout(types: seq<Type>): seq<Indexed> {
    Sort(IndexedTypes(types))
  }

  /** The storage: sorted by alignment, and of elements aligned alike the one declared last comes first. */
  lemma LayoutOrder(types: seq<Type>)
    ensures Sorted(Layout(types)) && LastFirst(Layout(types))
  {
    SortSorts(IndexedTypes(types));
    SortPutsLastFirst(IndexedTypes(types));
  }

  lemma {:induction false} Twice(xs: seq<Indexed>, a: nat, b: nat)
    requires a < b < |xs| && xs[a] == xs[b]
    ensures multiset(xs)[xs[a]] >= 2
  {
    assert xs == xs[..b] + xs[b..];
    assert xs[..b][a] == xs[a] && xs[a] in multiset(xs[..b]);
    assert xs[b..][0] == xs[b] && xs[b] in multiset(xs[b..]);
  }

  lemma {:induction false} Once(types: seq<Type>, n: nat, i: nat)
    requires i < n <= |types|
    ensures multiset(IndexedTypes(types)[..n])[Indexed(i, types[i])] == 1
  {
    var xs := IndexedTypes(types);
    assert xs[..n] == xs[..n - 1] + [xs[n - 1]];
    if i < n - 1 {
      Once(types, n - 1, i);
    } else {
      assert Indexed(i, types[i]) !in xs[..n - 1];
    }
  }

  /** The one place in the storage that belongs to an element of the declaration. */
  lemma PlaceOf(types: seq<Type>, i: nat) returns (at: nat)
    requires i < |types|
    ensures at < |Layout(types)| == |types| && Layout(types)[at] == Indexed(i, types[i])
    ensures forall other | 0 <= other < |types| :: Layout(types)[other].interface == i ==> other == at
  {
    var xs, layout := IndexedTypes(types), Layout(types);
    SortPermutes(xs);
    assert |layout| == |multiset(layout)| == |xs|;
    InBoth(layout, xs, xs[i]);
    at :| 0 <= at < |layout| && layout[at] == Indexed(i, types[i]);
    Once(types, |types|, i);
    assert xs[..|types|] == xs;
    forall other | 0 <= other < |types| && layout[other].interface == i
      ensures other == at
    {
      InBoth(layout, xs, layout[other]);
      if other < at { Twice(layout, other, at); }
      if at < other { Twice(layout, at, other); }
    }
  }

  datatype Leaf<+V> = Leaf(of: Indexed, value: V)

  /** A tuple: its type list, and its leaves in the order of the storage. */
  datatype Tuple<+V> = Tuple(types: seq<Type>, leaves: seq<Leaf<V>>)

  ghost predicate IsTuple<V>(t: Tuple<V>) {
    |t.leaves| == |t.types| == |Layout(t.types)| && forall k | 0 <= k < |t.leaves| :: t.leaves[k].of == Layout(t.types)[k]
  }

  lemma InterfaceInRange(types: seq<Type>, k: nat)
    requires k < |Layout(types)|
    ensures |Layout(types)| == |types| && Layout(types)[k].interface < |types|
  {
    var xs, layout := IndexedTypes(types), Layout(types);
    SortPermutes(xs);
    assert |layout| == |multiset(layout)| == |xs|;
    InBoth(layout, xs, layout[k]);
  }

  lemma LayoutSize(types: seq<Type>)
    ensures |Layout(types)| == |types|
  {
    SortPermutes(IndexedTypes(types));
    assert |Layout(types)| == |multiset(Layout(types))| == |IndexedTypes(types)|;
  }

  function LeafAt<V>(types: seq<Type>, arguments: seq<V>, k: nat): (leaf: Leaf<V>)
    requires |types| == |arguments| && k < |Layout(types)|
    ensures leaf.of == Layout(types)[k] && leaf.of.interface < |types| && leaf.value == arguments[leaf.of.interface]
  {
    InterfaceInRange(types, k);
    Leaf(Layout(types)[k], arguments[Layout(types)[k].interface])
  }

  /** The constructor: each leaf is given the argument of its place in the declaration. */
  function Construct<V>(types: seq<Type>, arguments: seq<V>): (t: Tuple<V>)
    requires |types| == |arguments|
    ensures t.types == types && IsTuple(t)
    ensures forall k | 0 <= k < |t.leaves| :: t.leaves[k].of.interface < |types| && t.leaves[k].value == arguments[t.leaves[k].of.interface]
  {
    LayoutSize(types);
    Tuple(types, seq(|Layout(types)|, k requires 0 <= k < |Layout(types)| => LeafAt(types, arguments, k)))
  }

  /** The leaf that the compiler deduces from the front-facing index: the first, and as proved the only, that fits. */
  function LeafFor<V>(leaves: seq<Leaf<V>>, i: nat): (r: Leaf<V>)
    requires exists k | 0 <= k < |leaves| :: leaves[k].of.interface == i
    ensures r in leaves && r.of.interface == i
  {
    if leaves[0].of.interface == i then leaves[0]
    else
      assert exists k | 0 <= k < |leaves[1..]| :: leaves[1..][k].of.interface == i by {
        var k :| 0 <= k < |leaves| && leaves[k].of.interface == i;
        assert leaves[1..][k - 1] == leaves[k];
      }
      LeafFor(leaves[1..], i)
  }

  lemma LeafIsThere<V>(t: Tuple<V>, i: nat)
    requires IsTuple(t) && i < |t.types|
    ensures exists k | 0 <= k < |t.leaves| :: t.leaves[k].of.interface == i
  {
    var at := PlaceOf(t.types, i);
    assert t.leaves[at].of.interface == i;
  }

  function Get<V>(t: Tuple<V>, i: nat): V
    requires IsTuple(t) && i < |t.types|
  {
    LeafIsThere(t, i);
    LeafFor(t.leaves, i).value
  }

  function Element<V>(t: Tuple<V>, i: nat): Type
    requires IsTuple(t) && i < |t.types|
  {
    LeafIsThere(t, i);
    LeafFor(t.leaves, i).of.of
  }

  /** Reordering does not show: an element has the type that was declared for it and the value it was constructed with. */
  lemma ReorderingIsInvisible<V>(types: seq<Type>, arguments: seq<V>, i: nat)
    requires |types| == |arguments| && i < |types|
    ensures Get(Construct(types, arguments), i) == arguments[i] && Element(Construct(types, arguments), i) == types[i]
  {
    var t := Construct(types, arguments);
    var at := PlaceOf(types, i);
    LeafIsThere(t, i);
    var leaf := LeafFor(t.leaves, i);
    var k :| 0 <= k < |t.leaves| && t.leaves[k] == leaf;
    assert Layout(types)[k].interface == i;
  }

  // ----- why: no padding -----

  function SizeOf(xs: seq<Indexed>): nat {
    if xs == [] then 0 else SizeOf(xs[..|xs| - 1]) + xs[|xs| - 1].of.size
  }

  /** Where a member of some alignment goes when the ones before it end at `end`. */
  function Aligned(end: nat, alignment: nat): nat
    requires alignment > 0
  {
    (end + alignment - 1) / alignment * alignment
  }

  /** Where the members end, padding included. */
  function EndOf(xs: seq<Indexed>): nat
    requires forall x | x in xs :: x.of.alignment > 0
  {
    if xs == [] then 0
    else Aligned(EndOf(xs[..|xs| - 1]), xs[|xs| - 1].of.alignment) + xs[|xs| - 1].of.size
  }

  /** Sizes are multiples of alignments, and of two alignments the smaller divides the larger. */
  ghost predicate Regular(xs: seq<Indexed>) {
    && (forall x | x in xs :: x.of.alignment > 0 && x.of.size % x.of.alignment == 0)
    && forall x, y | x in xs && y in xs && y.of.alignment <= x.of.alignment :: x.of.alignment % y.of.alignment == 0
  }

  lemma DividesThrough(n: nat, a: nat, b: nat)
    requires a > 0 && b > 0 && n % a == 0 && a % b == 0
    ensures n % b == 0
  {
    var q, r := n / a, a / b;
    assert n == a * q && a == b * r;
    assert n == b * (r * q) by { assert (b * r) * q == b * (r * q); }
    DivModUnique(n, b, r * q, 0);
  }

  lemma SumDivides(m: nat, n: nat, a: nat)
    requires a > 0 && m % a == 0 && n % a == 0
    ensures (m + n) % a == 0
  {
    var p, q := m / a, n / a;
    assert m + n == a * (p + q);
    DivModUnique(m + n, a, p + q, 0);
  }

  lemma AlignedAlready(end: nat, a: nat)
    requires a > 0 && end % a == 0
    ensures Aligned(end, a) == end
  {
    var q := end / a;
    assert end == a * q;
    DivModUnique(end + a - 1, a, q, a - 1);
  }

  lemma {:induction false} PrefixDivides(xs: seq<Indexed>, a: nat)
    requires Regular(xs) && a > 0 && forall x | x in xs :: x.of.alignment % a == 0
    ensures SizeOf(xs) % a == 0
  {
    if xs != [] {
      var front, last := xs[..|xs| - 1], xs[|xs| - 1];
      assert last in xs && forall x | x in front :: x in xs;
      PrefixDivides(front, a);
      DividesThrough(last.of.size, last.of.alignment, a);
      SumDivides(SizeOf(front), last.of.size, a);
    }
  }

  lemma FrontIsRegular(xs: seq<Indexed>)
    requires Regular(xs) && Sorted(xs) && xs != []
    ensures Regular(xs[..|xs| - 1]) && Sorted(xs[..|xs| - 1]) && xs[|xs| - 1].of.alignment > 0
    ensures forall x | x in xs[..|xs| - 1] :: x.of.alignment % xs[|xs| - 1].of.alignment == 0
  {
    var front, last := xs[..|xs| - 1], xs[|xs| - 1];
    assert last in xs && forall x | x in front :: x in xs;
    forall x | x in front ensures x.of.alignment % last.of.alignment == 0 {
      var k :| 0 <= k < |front| && front[k] == x;
      assert xs[k] == x;
    }
  }

  /** Sorted storage has no padding between members. */
  lemma {:induction false} SortedHasNoPadding(xs: seq<Indexed>)
    requires Regular(xs) && Sorted(xs)
    ensures EndOf(xs) == SizeOf(xs)
  {
    if xs != [] {
      FrontIsRegular(xs);
      SortedHasNoPadding(xs[..|xs| - 1]);
      PrefixDivides(xs[..|xs| - 1], xs[|xs| - 1].of.alignment);
      AlignedAlready(SizeOf(xs[..|xs| - 1]), xs[|xs| - 1].of.alignment);
    }
  }

  lemma LayoutHasNoPadding(types: seq<Type>)
    requires Regular(IndexedTypes(types))
    ensures (forall x | x in Layout(types) :: x.of.alignment > 0) && EndOf(Layout(types)) == SizeOf(Layout(types))
  {
    var xs := IndexedTypes(types);
    SortPermutes(xs);
    SortSorts(xs);
    forall x ensures x in Layout(types) <==> x in xs { InBoth(Layout(types), xs, x); }
    SortedHasNoPadding(Layout(types));
  }
}
