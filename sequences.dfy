/** Order-preserving list operations used by the Ruby code: `select`, `uniq` and `flatten`. */
module Sequences {

  /** The elements of a list, as a set. */
  function Elems<T>(s: seq<T>): set<T> {
    set x | x in s
  }

  /** No element occurs twice. */
  predicate NoDups<T(==)>(s: seq<T>) {
    forall i, j :: 0 <= i < j < |s| ==> s[i] != s[j]
  }

  /** Every element of `r` is first seen in `s` before every later element of `r`:
      wherever `r[j]` occurs in `s`, `r[i]` has already occurred for every `i < j`. */
  ghost predicate FirstSeenOrder<T>(r: seq<T>, s: seq<T>) {
    forall i, j, k :: 0 <= i < j < |r| && 0 <= k < |s| && s[k] == r[j] ==> r[i] in s[..k]
  }

  /** Ruby's `select`: the elements that satisfy `p`, in their original order. */
  function Filter<T>(s: seq<T>, p: T -> bool): (r: seq<T>)
    ensures |r| <= |s|
    ensures forall x :: x in r ==> x in s && p(x)
    ensures forall x :: x in s && p(x) ==> x in r
  {
    if s == [] then [] else (if p(s[0]) then [s[0]] else []) + Filter(s[1..], p)
  }

  /** Selecting from a concatenation selects from each part, so the order of the input is kept. */
  lemma {:induction false} FilterConcat<T>(s: seq<T>, t: seq<T>, p: T -> bool)
    ensures Filter(s + t, p) == Filter(s, p) + Filter(t, p)
  {
    if s != [] {
      assert (s + t)[1..] == s[1..] + t;
      FilterConcat(s[1..], t, p);
    } else {
      assert s + t == t;
    }
  }

  /** Ruby's `uniq`: each element is kept at its first occurrence; later repeats are dropped. */
  function Dedup<T(==)>(s: seq<T>): (r: seq<T>)
    ensures NoDups(r)
    ensures Elems(r) == Elems(s)
    ensures |r| <= |s|
  {
    if s == [] then []
    else
      var front := s[..|s| - 1];
      assert Elems(s) == Elems(front) + {s[|s| - 1]} by {
        assert s == front + [s[|s| - 1]];
      }
      if s[|s| - 1] in front then Dedup(front) else Dedup(front) + [s[|s| - 1]]
  }

  /** The elements `uniq` keeps appear in the order in which the input first shows them. */
  lemma {:induction false} DedupFirstSeenOrder<T>(s: seq<T>)
    ensures FirstSeenOrder(Dedup(s), s)
  {
    if s != [] {
      var n := |s| - 1;
      var front := s[..n];
      DedupFirstSeenOrder(front);
      var p := Dedup(front);
      var r := Dedup(s);
      forall i, j, k | 0 <= i < j < |r| && 0 <= k < |s| && s[k] == r[j]
        ensures r[i] in s[..k]
      {
        assert r[i] in Elems(p) by {
          assert i < |p|;
          assert r[i] == p[i];
        }
        if k < n {
          assert front[k] == s[k];
          assert j < |p|;
          assert r[j] == p[j] && r[i] == p[i];
          assert p[i] in front[..k];
          assert front[..k] == s[..k];
        } else {
          assert s[..k] == front;
        }
      }
    }
  }

  /** A list without duplicates is as long as its set of elements is large. */
  lemma {:induction false} NoDupsCard<T>(s: seq<T>)
    requires NoDups(s)
    ensures |Elems(s)| == |s|
  {
    if s != [] {
      var front := s[..|s| - 1];
      assert NoDups(front);
      NoDupsCard(front);
      assert s == front + [s[|s| - 1]];
      assert Elems(s) == Elems(front) + {s[|s| - 1]};
      assert s[|s| - 1] !in Elems(front) by {
        forall i | 0 <= i < |front| ensures front[i] != s[|s| - 1] {
          assert front[i] == s[i];
        }
      }
    }
  }

  /** `uniq` keeps exactly one copy of each distinct element. */
  lemma DedupCard<T>(s: seq<T>)
    ensures |Dedup(s)| == |Elems(s)|
  {
    NoDupsCard(Dedup(s));
  }

  /** Appending elements that were already seen does not change the result of `uniq`. */
  lemma {:induction false} DedupAbsorbs<T>(s: seq<T>, t: seq<T>)
    requires Elems(t) <= Elems(s)
    ensures Dedup(s + t) == Dedup(s)
  {
    if t != [] {
      var t' := t[..|t| - 1];
      assert Elems(t') <= Elems(t);
      DedupAbsorbs(s, t');
      assert (s + t)[..|s + t| - 1] == s + t';
      assert t[|t| - 1] in Elems(t);
      assert (s + t)[|s + t| - 1] in s + t';
    } else {
      assert s + t == s;
    }
  }

  /** `uniq` leaves a list without duplicates as it is; in particular it is idempotent. */
  lemma {:induction false} DedupOfNoDups<T>(s: seq<T>)
    requires NoDups(s)
    ensures Dedup(s) == s
  {
    if s != [] {
      var front := s[..|s| - 1];
      assert NoDups(front);
      DedupOfNoDups(front);
      assert s[|s| - 1] !in front by {
        forall i | 0 <= i < |front| ensures front[i] != s[|s| - 1] {
          assert front[i] == s[i];
        }
      }
      assert s == front + [s[|s| - 1]];
    }
  }

  /** Ruby's `flatten` of a list of lists (one level deep): the lists joined in order. Every
      element of every list is in the result, and nothing else is. */
  function Flatten<T>(ss: seq<seq<T>>): (r: seq<T>)
    ensures forall k, i :: 0 <= k < |ss| && 0 <= i < |ss[k]| ==> ss[k][i] in r
    ensures forall x :: x in r ==> exists k :: 0 <= k < |ss| && x in ss[k]
    ensures |ss| == 1 ==> r == ss[0]
  {
    if ss == [] then []
    else
      var rest := Flatten(ss[1..]);
      assert forall k, i :: 1 <= k < |ss| && 0 <= i < |ss[k]| ==> ss[k][i] in rest by {
        forall k, i | 1 <= k < |ss| && 0 <= i < |ss[k]| ensures ss[k][i] in rest {
          assert ss[k] == ss[1..][k - 1];
        }
      }
      assert forall x :: x in rest ==> exists k :: 0 <= k < |ss| && x in ss[k] by {
        forall x | x in rest ensures exists k :: 0 <= k < |ss| && x in ss[k] {
          var k :| 0 <= k < |ss[1..]| && x in ss[1..][k];
          assert ss[k + 1] == ss[1..][k];
        }
      }
      ss[0] + rest
  }

  /** `flatten` of a concatenation is the concatenation of the two flattened parts. */
  lemma {:induction false} FlattenConcat<T>(xs: seq<seq<T>>, ys: seq<seq<T>>)
    ensures Flatten(xs + ys) == Flatten(xs) + Flatten(ys)
  {
    if xs != [] {
      assert (xs + ys)[1..] == xs[1..] + ys;
      FlattenConcat(xs[1..], ys);
    } else {
      assert xs + ys == ys;
    }
  }
}
