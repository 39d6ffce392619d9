/** `Jaccard::Index.generate`: the size of the intersection over the size of the union, where
    Ruby's array `&` and `|` both drop duplicates. */
module Jaccard {
  import opened Sequences

  /** The Float that `fdiv` returns: an exact quotient, or NaN for `0.fdiv(0)`. */
  datatype Quotient = Exact(value: real) | NaN

  /** Ruby's `a & b`: the elements of `a` that are also in `b`, without repeats, in `a`'s order. */
  function Intersection<T(==)>(a: seq<T>, b: seq<T>): (r: seq<T>)
    ensures NoDups(r) && Elems(r) == Elems(a) * Elems(b)
  {
    Dedup(Filter(a, x => x in b))
  }

  /** Ruby's `a | b`: the elements of `a` and then of `b`, without repeats. */
  function Union<T(==)>(a: seq<T>, b: seq<T>): (r: seq<T>)
    ensures NoDups(r) && Elems(r) == Elems(a) + Elems(b)
  {
    Dedup(a + b)
  }

  /** `generate(category1, category2)`. Two empty inputs give NaN, as `0.fdiv(0)` does;
      otherwise the index is a fraction between 0 and 1. */
  function Index<T(==)>(a: seq<T>, b: seq<T>): (r: Quotient)
    ensures r.NaN? <==> a == [] && b == []
    ensures r.Exact? ==> 0.0 <= r.value <= 1.0
  {
    var intersection := |Intersection(a, b)|;
    var union := |Union(a, b)|;
    SizesAreCardinalities(a, b);
    SubsetCard(Elems(a) * Elems(b), Elems(a) + Elems(b));
    assert a != [] ==> a[0] in Elems(a);
    assert b != [] ==> b[0] in Elems(b);
    if union == 0 then NaN else
    FractionBound(intersection, union);
    Exact(intersection as real / union as real)
  }

  lemma FractionBound(n: nat, d: nat)
    requires n <= d && d > 0
    ensures 0.0 <= n as real / d as real <= 1.0
  {
  }

  lemma SubsetCard<T>(small: set<T>, large: set<T>)
    requires small <= large
    ensures |small| <= |large|
  {
    assert large == small + (large - small);
  }

  /** The numerator and denominator are the sizes of the set intersection and set union. */
  lemma SizesAreCardinalities<T>(a: seq<T>, b: seq<T>)
    ensures |Intersection(a, b)| == |Elems(a) * Elems(b)|
    ensures |Union(a, b)| == |Elems(a) + Elems(b)|
  {
    NoDupsCard(Intersection(a, b));
    NoDupsCard(Union(a, b));
  }

  /** The index as a function of the two sets alone: repeated elements and order make no difference. */
  lemma IndexOfSets<T>(a: seq<T>, b: seq<T>)
    ensures Index(a, b) ==
      if Elems(a) + Elems(b) == {} then NaN
      else Exact(|Elems(a) * Elems(b)| as real / |Elems(a) + Elems(b)| as real)
  {
    SizesAreCardinalities(a, b);
  }

  /** Inputs with the same elements have the same index, however often each element is repeated. */
  lemma RepeatsIrrelevant<T>(a: seq<T>, b: seq<T>, a': seq<T>, b': seq<T>)
    requires Elems(a) == Elems(a') && Elems(b) == Elems(b')
    ensures Index(a, b) == Index(a', b')
  {
    IndexOfSets(a, b);
    IndexOfSets(a', b');
  }

  /** The index is symmetric. */
  lemma IndexSymmetric<T>(a: seq<T>, b: seq<T>)
    ensures Index(a, b) == Index(b, a)
  {
    IndexOfSets(a, b);
    IndexOfSets(b, a);
    assert Elems(a) * Elems(b) == Elems(b) * Elems(a);
    assert Elems(a) + Elems(b) == Elems(b) + Elems(a);
  }

  /** A non-empty input paired with itself gives 1.0. */
  lemma IndexOfEqual<T>(a: seq<T>)
    requires a != []
    ensures Index(a, a) == Exact(1.0)
  {
    IndexOfSets(a, a);
    assert Elems(a) * Elems(a) == Elems(a) && Elems(a) + Elems(a) == Elems(a);
    assert a[0] in Elems(a);
    var n := |Elems(a)|;
    assert n > 0;
    assert n as real / n as real == 1.0;
  }

  /** A non-empty input paired with an empty one gives 0.0. */
  lemma IndexWithEmpty<T>(a: seq<T>)
    requires a != []
    ensures Index(a, []) == Exact(0.0)
  {
    IndexOfSets(a, []);
    assert Elems<T>([]) == {};
    assert a[0] in Elems(a);
  }

  /** With `i` shared values among `u` distinct ones, the index is `i / u`. */
  lemma IndexFromCards<T>(a: seq<T>, b: seq<T>, i: nat, u: nat)
    requires |Elems(a) * Elems(b)| == i && |Elems(a) + Elems(b)| == u && u > 0
    ensures Index(a, b) == Exact(i as real / u as real)
  {
    IndexOfSets(a, b);
  }

  lemma ExampleCards(a: seq<int>, b: seq<int>)
    requires a == [1, 2, 3, 1, 1, 45, 23, 22, 12, 44] && b == [2, 2, 2, 45]
    ensures |Elems(a) * Elems(b)| == 2 && |Elems(a) + Elems(b)| == 8
  {
    var left: set<int> := {1, 2, 3, 45, 23, 22, 12, 44};
    assert Elems(a) == left by {
      assert a[0] == 1 && a[1] == 2 && a[2] == 3 && a[5] == 45 && a[6] == 23 && a[7] == 22 && a[8] == 12 && a[9] == 44;
    }
    assert Elems(b) == {2, 45} by {
      assert b[0] == 2 && b[3] == 45;
    }
    assert left * {2, 45} == {2, 45};
    assert left + {2, 45} == left;
  }

  /** The documented example: two of the eight distinct values are shared, so the index is 0.25. */
  lemma QuarterExample(a: seq<int>, b: seq<int>)
    requires a == [1, 2, 3, 1, 1, 45, 23, 22, 12, 44] && b == [2, 2, 2, 45]
    ensures Index(a, b) == Exact(0.25)
  {
    ExampleCards(a, b);
    assert 2 as real / 8 as real == 0.25;
    IndexFromCards(a, b, 2, 8);
  }
}
