/** `Levenstein::Distance.generate`: unit-cost edit distance by dynamic programming, and its
    ratio to the length of the second string. */
module Levenstein {

  /** What `generate` returns: a bare integer on its two early returns, a pair otherwise. */
  datatype Outcome = Bare(n: nat) | Pair(distance: nat, ratio: real)

  function Min3(a: nat, b: nat, c: nat): (m: nat)
    ensures m <= a && m <= b && m <= c
    ensures m == a || m == b || m == c
  {
    if a <= b && a <= c then a else if b <= c then b else c
  }

  /** The edit distance of `s` and `t`: the fewest single-character deletions, insertions and
      substitutions that turn `s` into `t`, stated on the last characters of the two strings. */
  function EditDistance(s: string, t: string): nat
    decreases |s| + |t|
  {
    if |s| == 0 then |t|
    else if |t| == 0 then |s|
    else
      var s', t' := s[..|s| - 1], t[..|t| - 1];
      Min3(EditDistance(s', t) + 1,
           EditDistance(s, t') + 1,
           EditDistance(s', t') + if s[|s| - 1] == t[|t| - 1] then 0 else 1)
  }

  /** Dropping the last character of the source costs at most one edit. */
  lemma DropSourceBound(s: string, t: string)
    requires |s| > 0
    ensures EditDistance(s, t) <= EditDistance(s[..|s| - 1], t) + 1
  {
  }

  /** Appending a character to the target lowers the distance by at most one. */
  lemma {:induction false} ExtendTargetBound(s: string, t: string, c: char)
    ensures EditDistance(s, t) <= EditDistance(s, t + [c]) + 1
    decreases |s|
  {
    if |s| > 0 {
      var s' := s[..|s| - 1];
      assert (t + [c])[..|t + [c]| - 1] == t;
      ExtendTargetBound(s', t, c);
      DropSourceBound(s, t);
    }
  }

  /** The distance does not depend on the direction of the edit. */
  lemma {:induction false} Symmetric(s: string, t: string)
    ensures EditDistance(s, t) == EditDistance(t, s)
    decreases |s| + |t|
  {
    if |s| > 0 && |t| > 0 {
      var s', t' := s[..|s| - 1], t[..|t| - 1];
      Symmetric(s', t);
      Symmetric(s, t');
      Symmetric(s', t');
    }
  }

  /** Appending a character to the source lowers the distance by at most one. */
  lemma ExtendSourceBound(s: string, t: string, c: char)
    ensures EditDistance(s, t) <= EditDistance(s + [c], t) + 1
  {
    Symmetric(s, t);
    Symmetric(s + [c], t);
    ExtendTargetBound(t, s, c);
  }

  /** The rule `generate` applies when the two last characters are equal: the cell takes its
      diagonal neighbour, with no minimum. It agrees with the edit distance. */
  lemma MatchTakesDiagonal(s: string, t: string)
    requires |s| > 0 && |t| > 0 && s[|s| - 1] == t[|t| - 1]
    ensures EditDistance(s, t) == EditDistance(s[..|s| - 1], t[..|t| - 1])
  {
    var s', t' := s[..|s| - 1], t[..|t| - 1];
    assert t == t' + [t[|t| - 1]];
    assert s == s' + [s[|s| - 1]];
    ExtendTargetBound(s', t', t[|t| - 1]);
    ExtendSourceBound(s', t', s[|s| - 1]);
  }

  function Gap(a: nat, b: nat): nat {
    if a <= b then b - a else a - b
  }

  function Max(a: nat, b: nat): nat {
    if a <= b then b else a
  }

  /** The distance is at least the difference of the lengths and at most the longer length. */
  lemma {:induction false} Bounds(s: string, t: string)
    ensures Gap(|s|, |t|) <= EditDistance(s, t) <= Max(|s|, |t|)
    decreases |s| + |t|
  {
    if |s| > 0 && |t| > 0 {
      var s', t' := s[..|s| - 1], t[..|t| - 1];
      Bounds(s', t);
      Bounds(s, t');
      Bounds(s', t');
    }
  }

  /** The distance is zero exactly when the two strings are equal. */
  lemma {:induction false} ZeroIffEqual(s: string, t: string)
    ensures EditDistance(s, t) == 0 <==> s == t
    decreases |s| + |t|
  {
    if |s| > 0 && |t| > 0 {
      var s', t' := s[..|s| - 1], t[..|t| - 1];
      ZeroIffEqual(s', t');
      Bounds(s', t);
      Bounds(s, t');
      if s == t {
        assert s' == t';
      }
      if EditDistance(s, t) == 0 {
        assert s == s' + [s[|s| - 1]] && t == t' + [t[|t| - 1]];
      }
    } else {
      Bounds(s, t);
    }
  }

  /** Deleting the characters around an occurrence of `t` is enough to reach `t`. */
  lemma {:induction false} InfixBound(u: string, t: string, v: string)
    ensures EditDistance(u + t + v, t) <= |u| + |v|
    decreases |v|
  {
    if |v| == 0 {
      assert u + t + v == u + t;
      PrefixBound(u, t);
    } else {
      var v' := v[..|v| - 1];
      InfixBound(u, t, v');
      assert (u + t + v)[..|u + t + v| - 1] == u + t + v';
      DropSourceBound(u + t + v, t);
    }
  }

  lemma {:induction false} PrefixBound(u: string, t: string)
    ensures EditDistance(u + t, t) <= |u|
    decreases |t|
  {
    if |t| == 0 {
      assert u + t == u;
    } else {
      var t' := t[..|t| - 1];
      PrefixBound(u, t');
      assert (u + t)[..|u + t| - 1] == u + t';
      MatchTakesDiagonal(u + t, t);
    }
  }

  /** The value `generate` writes into cell `[row, column]` from its three neighbours is the edit
      distance of the two prefixes, provided the neighbours already hold theirs. */
  lemma CellRule(s1: string, s2: string, row: nat, column: nat)
    requires 1 <= row <= |s1| && 1 <= column <= |s2|
    ensures EditDistance(s1[..row], s2[..column]) ==
      if s1[row - 1] == s2[column - 1] then EditDistance(s1[..row - 1], s2[..column - 1])
      else Min3(EditDistance(s1[..row - 1], s2[..column]) + 1,
                EditDistance(s1[..row], s2[..column - 1]) + 1,
                EditDistance(s1[..row - 1], s2[..column - 1]) + 1)
  {
    var x, y := s1[..row], s2[..column];
    assert x[..row - 1] == s1[..row - 1] && y[..column - 1] == s2[..column - 1];
    if s1[row - 1] == s2[column - 1] {
      MatchTakesDiagonal(x, y);
    }
  }

  /** Table cells `[a, b]` for every row `a` below `rows` hold the edit distance of the prefixes. */
  ghost predicate RowsDone(distance: array2<nat>, s1: string, s2: string, rows: nat)
    reads distance
    requires distance.Length0 == |s1| + 1 && distance.Length1 == |s2| + 1 && rows <= |s1| + 1
  {
    forall a, b :: 0 <= a < rows && 0 <= b <= |s2| ==> distance[a, b] == EditDistance(s1[..a], s2[..b])
  }

  /** One pass of the inner `(1..string2_length).each` loop: fills row `row` left to right. */
  method FillRow(distance: array2<nat>, s1: string, s2: string, row: nat)
    requires distance.Length0 == |s1| + 1 && distance.Length1 == |s2| + 1
    requires 1 <= row <= |s1|
    requires RowsDone(distance, s1, s2, row)
    requires distance[row, 0] == row
    modifies distance
    ensures RowsDone(distance, s1, s2, row + 1)
    ensures forall a, b :: row < a <= |s1| && 0 <= b <= |s2| ==> distance[a, b] == old(distance[a, b])
  {
    assert s1[..row][..0] == [];
    var column := 1;
    while column <= |s2|
      invariant 1 <= column <= |s2| + 1
      invariant RowsDone(distance, s1, s2, row)
      invariant forall b :: 0 <= b < column ==> distance[row, b] == EditDistance(s1[..row], s2[..b])
      invariant forall a, b :: row < a <= |s1| && 0 <= b <= |s2| ==> distance[a, b] == old(distance[a, b])
    {
      CellRule(s1, s2, row, column);
      if s1[row - 1] == s2[column - 1] {
        distance[row, column] := distance[row - 1, column - 1];
      } else {
        distance[row, column] := Min3(distance[row - 1, column] + 1,     // deletion
                                      distance[row, column - 1] + 1,     // insertion
                                      distance[row - 1, column - 1] + 1); // substitution
      }
      column := column + 1;
    }
  }

  /** `generate`: fills the `(|s1|+1) x (|s2|+1)` table row by row; cell `[i, j]` ends up holding
      the edit distance of the first `i` characters of `s1` and the first `j` characters of `s2`. */
  method Generate(s1: string, s2: string) returns (r: Outcome)
    ensures |s2| == 0 ==> r == Bare(|s1|)
    ensures |s2| != 0 && |s1| == 0 ==> r == Bare(|s2|)
    ensures |s1| != 0 && |s2| != 0 ==>
      r == Pair(EditDistance(s1, s2), EditDistance(s1, s2) as real / |s2| as real)
  {
    var n1, n2 := |s1|, |s2|;
    if n2 == 0 {
      return Bare(n1);
    }
    if n1 == 0 {
      return Bare(n2);
    }
    var distance := new nat[n1 + 1, n2 + 1];
    var i := 0;
    while i <= n1
      invariant 0 <= i <= n1 + 1
      invariant forall a :: 0 <= a < i ==> distance[a, 0] == a
    {
      distance[i, 0] := i;
      i := i + 1;
    }
    var j := 0;
    while j <= n2
      invariant 0 <= j <= n2 + 1
      invariant forall a :: 0 <= a <= n1 ==> distance[a, 0] == a
      invariant forall b :: 0 <= b < j ==> distance[0, b] == b
    {
      distance[0, j] := j;
      j := j + 1;
    }
    var row := 1;
    while row <= n1
      invariant 1 <= row <= n1 + 1
      invariant RowsDone(distance, s1, s2, row)
      invariant forall a :: row <= a <= n1 ==> distance[a, 0] == a
    {
      FillRow(distance, s1, s2, row);
      row := row + 1;
    }
    assert s1[..n1] == s1 && s2[..n2] == s2;
    var levensteinDistance := distance[n1, n2];
    r := Pair(levensteinDistance, levensteinDistance as real / n2 as real);
  }

  /** "guru-tech" against "guru" is five edits apart, a ratio of 1.25. */
  lemma GuruTechExample()
    ensures EditDistance("guru-tech", "guru") == 5
    ensures 5 as real / 4 as real == 1.25
  {
    assert "guru-tech" == [] + "guru" + "-tech";
    InfixBound([], "guru", "-tech");
    Bounds("guru-tech", "guru");
  }

  /** "piratetesting" against "test" is nine edits apart. */
  lemma PirateTestingExample()
    ensures EditDistance("piratetesting", "test") == 9
  {
    assert "piratetesting" == "pirate" + "test" + "ing";
    InfixBound("pirate", "test", "ing");
    Bounds("piratetesting", "test");
  }

  /** On the early returns the bare integer is the edit distance; only the ratio is missing. */
  lemma EarlyReturnIsDistance(s1: string, s2: string)
    requires |s1| == 0 || |s2| == 0
    ensures EditDistance(s1, s2) == (if |s2| == 0 then |s1| else |s2|)
  {
  }
}
