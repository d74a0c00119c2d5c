/** Concatenating tuples through two index tables. */
module TupleConcatenation {
  import opened Concatenation
  import opened TupleLayout

  /** The elements of the `i`-th tuple, by tuple and place in it. */
  function Row(i: nat, n: nat): (row: seq<(nat, nat)>)
    ensures |row| == n && forall j | 0 <= j < n :: row[j] == (i, j)
  {
    seq(n, j requires 0 <= j < n => (i, j))
  }

  /** All of them, tuple after tuple. */
  function Pairs(sizes: seq<nat>): seq<(nat, nat)> {
    if sizes == [] then [] else Pairs(sizes[..|sizes| - 1]) + Row(|sizes| - 1, sizes[|sizes| - 1])
  }

  function Sum(sizes: seq<nat>): nat {
    if sizes == [] then 0 else Sum(sizes[..|sizes| - 1]) + sizes[|sizes| - 1]
  }

  lemma {:induction false} PairsCount(sizes: seq<nat>)
    ensures |Pairs(sizes)| == Sum(sizes)
  {
    if sizes != [] { PairsCount(sizes[..|sizes| - 1]); }
  }

  lemma {:induction false} PrefixSum(sizes: seq<nat>, i: nat)
    requires i <= |sizes|
    ensures Sum(sizes[..i]) <= Sum(sizes)
  {
    if i < |sizes| {
      PrefixSum(sizes[..|sizes| - 1], i);
      assert sizes[..|sizes| - 1][..i] == sizes[..i];
    } else {
      assert sizes[..i] == sizes;
    }
  }

  lemma NextSum(sizes: seq<nat>, i: nat)
    requires i < |sizes|
    ensures Sum(sizes[..i]) + sizes[i] == Sum(sizes[..i + 1]) <= Sum(sizes)
    ensures Pairs(sizes[..i + 1]) == Pairs(sizes[..i]) + Row(i, sizes[i])
  {
    assert sizes[..i + 1][..i] == sizes[..i];
    PrefixSum(sizes, i + 1);
  }

  /** The first entries of both tables are these pairs. */
  ghost predicate Tabulated(inner: array<nat>, outer: array<nat>, pairs: seq<(nat, nat)>)
    reads inner, outer
  {
    |pairs| <= inner.Length == outer.Length && forall k | 0 <= k < |pairs| :: (inner[k], outer[k]) == pairs[k]
  }

  /** The inner loop: the entries for one tuple. */
  method FillRow(inner: array<nat>, outer: array<nat>, i: nat, n: nat, start: nat, ghost done: seq<(nat, nat)>)
    returns (globalIndex: nat)
    requires inner != outer && Tabulated(inner, outer, done) && start == |done| && start + n <= inner.Length
    modifies inner, outer
    ensures globalIndex == start + n && Tabulated(inner, outer, done + Row(i, n))
  {
    globalIndex := start;
    for j := 0 to n
      invariant globalIndex == start + j
      invariant forall k | 0 <= k < start :: (inner[k], outer[k]) == done[k]
      invariant forall k | start <= k < start + j :: inner[k] == i && outer[k] == k - start
    {
      inner[globalIndex] := i;
      outer[globalIndex] := j;
      globalIndex := globalIndex + 1;
    }
  }

  /** `tuple_cat_index_gen`: the tables of tuple numbers and of places. */
  method IndexGen(sizes: seq<nat>) returns (inner: array<nat>, outer: array<nat>)
    ensures fresh(inner) && fresh(outer) && inner.Length == |Pairs(sizes)| && Tabulated(inner, outer, Pairs(sizes))
  {
    PairsCount(sizes);
    inner, outer := new nat[Sum(sizes)], new nat[Sum(sizes)];
    var globalIndex := 0;
    assert sizes[..0] == [];
    for i := 0 to |sizes|
      invariant Tabulated(inner, outer, Pairs(sizes[..i])) && globalIndex == |Pairs(sizes[..i])| == Sum(sizes[..i])
    {
      NextSum(sizes, i);
      PairsCount(sizes[..i + 1]);
      globalIndex := FillRow(inner, outer, i, sizes[i], globalIndex, Pairs(sizes[..i]));
    }
    assert sizes[..|sizes|] == sizes;
  }

  function SizesOf<T>(parts: seq<seq<T>>): (sizes: seq<nat>)
    ensures |sizes| == |parts| && forall i | 0 <= i < |parts| :: sizes[i] == |parts[i]|
  {
    seq(|parts|, i requires 0 <= i < |parts| => |parts[i]|)
  }

  /** The pairs enumerate the concatenation: the k-th is where the k-th element of it comes from. */
  lemma {:induction false} PairsEnumerate<T>(parts: seq<seq<T>>, k: nat)
    requires k < |Pairs(SizesOf(parts))|
    ensures |Flat(parts)| == |Pairs(SizesOf(parts))|
    ensures var (i, j) := Pairs(SizesOf(parts))[k]; i < |parts| && j < |parts[i]| && Flat(parts)[k] == parts[i][j]
    decreases |parts|
  {
    var n := |parts| - 1;
    var front, last := parts[..n], parts[n];
    assert parts == front + [last] && SizesOf(parts)[..n] == SizesOf(front);
    FlatAppend(front, last);
    FlatCount(front);
    if k < |Pairs(SizesOf(front))| { PairsEnumerate(front, k); }
  }

  lemma {:induction false} FlatCount<T>(parts: seq<seq<T>>)
    ensures |Flat(parts)| == |Pairs(SizesOf(parts))|
    decreases |parts|
  {
    if parts != [] {
      var n := |parts| - 1;
      assert parts == parts[..n] + [parts[n]] && SizesOf(parts)[..n] == SizesOf(parts[..n]);
      FlatAppend(parts[..n], parts[n]);
      FlatCount(parts[..n]);
    }
  }

  /** Elements know their types: what `tuple_element` says of a constructed tuple. */
  ghost predicate WellTyped<V>(t: Tuple<V>) {
    IsTuple(t) && forall i: nat | i < |t.types| :: Element(t, i) == t.types[i]
  }

  ghost predicate AreTuples<V>(tuples: seq<Tuple<V>>) {
    forall i | 0 <= i < |tuples| :: WellTyped(tuples[i])
  }

  function TypesOf<V>(tuples: seq<Tuple<V>>): (types: seq<seq<Type>>)
    ensures |types| == |tuples| && forall i | 0 <= i < |tuples| :: types[i] == tuples[i].types
  {
    seq(|tuples|, i requires 0 <= i < |tuples| => tuples[i].types)
  }

  function ValuesOf<V>(t: Tuple<V>): (values: seq<V>)
    requires IsTuple(t)
    ensures |values| == |t.types| && forall i | 0 <= i < |t.types| :: values[i] == Get(t, i)
  {
    seq(|t.types|, i requires 0 <= i < |t.types| => Get(t, i))
  }

  function AllValues<V>(tuples: seq<Tuple<V>>): (values: seq<seq<V>>)
    requires AreTuples(tuples)
    ensures |values| == |tuples| && forall i | 0 <= i < |tuples| :: values[i] == ValuesOf(tuples[i])
  {
    seq(|tuples|, i requires 0 <= i < |tuples| => ValuesOf(tuples[i]))
  }

  /** What the tables lead to: the k-th type and the k-th value of the concatenation. */
  lemma PairLeadsTo<V>(tuples: seq<Tuple<V>>, k: nat)
    requires AreTuples(tuples) && k < |Pairs(SizesOf(TypesOf(tuples)))|
    ensures |Flat(TypesOf(tuples))| == |Flat(AllValues(tuples))| == |Pairs(SizesOf(TypesOf(tuples)))|
    ensures var (i, j) := Pairs(SizesOf(TypesOf(tuples)))[k];
      && i < |tuples| && j < |tuples[i].types|
      && Element(tuples[i], j) == Flat(TypesOf(tuples))[k] && Get(tuples[i], j) == Flat(AllValues(tuples))[k]
  {
    assert SizesOf(AllValues(tuples)) == SizesOf(TypesOf(tuples));
    PairsEnumerate(TypesOf(tuples), k);
    PairsEnumerate(AllValues(tuples), k);
    var (i, j) := Pairs(SizesOf(TypesOf(tuples)))[k];
    assert AllValues(tuples)[i] == ValuesOf(tuples[i]);
  }

  ghost predicate LeadsTo<V>(tuples: seq<Tuple<V>>, i: nat, j: nat, element: Type, value: V)
    requires AreTuples(tuples)
  {
    i < |tuples| && j < |tuples[i].types| && Element(tuples[i], j) == element && Get(tuples[i], j) == value
  }

  /** The element, and its type, for every pair of the tables. */
  method Collect<V>(tuples: seq<Tuple<V>>, inner: array<nat>, outer: array<nat>, ghost allTypes: seq<Type>, ghost allValues: seq<V>)
    returns (types: seq<Type>, arguments: seq<V>)
    requires AreTuples(tuples) && |allTypes| == |allValues| == inner.Length == outer.Length
    requires forall k | 0 <= k < inner.Length :: LeadsTo(tuples, inner[k], outer[k], allTypes[k], allValues[k])
    ensures types == allTypes && arguments == allValues
  {
    types, arguments := [], [];
    for k := 0 to inner.Length
      invariant |types| == |arguments| == k && types == allTypes[..k] && arguments == allValues[..k]
    {
      assert LeadsTo(tuples, inner[k], outer[k], allTypes[k], allValues[k]);
      var from := tuples[inner[k]];
      types := types + [Element(from, outer[k])];
      arguments := arguments + [Get(from, outer[k])];
    }
  }

  /** `tuple_cat`: the result is the concatenation, in types and in values. */
  method TupleCat<V>(tuples: seq<Tuple<V>>) returns (t: Tuple<V>)
    requires AreTuples(tuples)
    ensures WellTyped(t) && t.types == Flat(TypesOf(tuples)) && ValuesOf(t) == Flat(AllValues(tuples))
  {
    var inner, outer := IndexGen(SizesOf(TypesOf(tuples)));
    ghost var allTypes, allValues := Flat(TypesOf(tuples)), Flat(AllValues(tuples));
    assert SizesOf(AllValues(tuples)) == SizesOf(TypesOf(tuples));
    FlatCount(TypesOf(tuples));
    FlatCount(AllValues(tuples));
    forall k | 0 <= k < inner.Length
      ensures LeadsTo(tuples, inner[k], outer[k], allTypes[k], allValues[k])
    {
      PairLeadsTo(tuples, k);
    }
    var types, arguments := Collect(tuples, inner, outer, allTypes, allValues);
    t := Construct(types, arguments);
    ConstructedIsWellTyped(types, arguments);
  }

  lemma ConstructedIsWellTyped<V>(types: seq<Type>, arguments: seq<V>)
    requires |types| == |arguments|
    ensures WellTyped(Construct(types, arguments)) && ValuesOf(Construct(types, arguments)) == arguments
  {
    var t := Construct(types, arguments);
    forall i: nat | i < |types| ensures Element(t, i) == types[i] && Get(t, i) == arguments[i] {
      ReorderingIsInvisible(types, arguments, i);
    }
  }
}
