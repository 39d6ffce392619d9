/** The Ruby string operations the core relies on: `downcase`, `chomp`, `gsub(/\s+/, '')`,
    `split(" ")`, `include?` and `sub`. Strings are sequences of characters. */
module Text {
  import opened Wrappers
  import Sequences

  /** Ruby's whitespace: space, tab, line feed, vertical tab, form feed, carriage return. */
  predicate IsWhitespace(c: char) {
    c == ' ' || '\t' <= c <= '\r'
  }

  predicate NoWhitespace(s: string) {
    forall i :: 0 <= i < |s| ==> !IsWhitespace(s[i])
  }

  predicate IsUpper(c: char) {
    'A' <= c <= 'Z'
  }

  predicate IsLowerCase(s: string) {
    forall i :: 0 <= i < |s| ==> !IsUpper(s[i])
  }

  function LowerChar(c: char): (d: char)
    ensures !IsUpper(d)
    ensures !IsUpper(c) ==> d == c
    ensures IsUpper(c) ==> 'a' <= d <= 'z' && d as int == c as int + 32
  {
    if IsUpper(c) then (c as int + 32) as char else c
  }

  /** `downcase`, character by character. */
  function Lower(s: string): (r: string)
    ensures |r| == |s| && IsLowerCase(r)
    ensures forall i :: 0 <= i < |s| ==> r[i] == LowerChar(s[i])
    ensures NoWhitespace(s) ==> NoWhitespace(r)
  {
    seq(|s|, i requires 0 <= i < |s| => LowerChar(s[i]))
  }

  lemma LowerConcat(a: string, b: string)
    ensures Lower(a + b) == Lower(a) + Lower(b)
  {
    assert forall i :: 0 <= i < |a + b| ==> Lower(a + b)[i] == (Lower(a) + Lower(b))[i];
  }

  /** Lowering a lower-case string changes nothing, so `downcase` is idempotent. */
  lemma LowerOfLowerCase(s: string)
    requires IsLowerCase(s)
    ensures Lower(s) == s
  {
  }

  /** `gsub(/\s+/, '')`: every whitespace character is dropped, the rest keep their order. */
  function RemoveWhitespace(s: string): (r: string)
    ensures |r| <= |s| && NoWhitespace(r)
    ensures forall c :: c in r <==> c in s && !IsWhitespace(c)
  {
    if s == [] then [] else (if IsWhitespace(s[0]) then [] else [s[0]]) + RemoveWhitespace(s[1..])
  }

  lemma {:induction false} RemoveWhitespaceConcat(a: string, b: string)
    ensures RemoveWhitespace(a + b) == RemoveWhitespace(a) + RemoveWhitespace(b)
  {
    if a != [] {
      assert (a + b)[1..] == a[1..] + b;
      RemoveWhitespaceConcat(a[1..], b);
    } else {
      assert a + b == b;
    }
  }

  lemma {:induction false} RemoveWhitespaceOfClean(s: string)
    requires NoWhitespace(s)
    ensures RemoveWhitespace(s) == s
  {
    if s != [] {
      RemoveWhitespaceOfClean(s[1..]);
    }
  }

  /** `chomp` without an argument: one trailing "\r\n", "\n" or "\r" is removed. */
  function Chomp(s: string): (r: string)
    ensures |r| <= |s| <= |r| + 2 && r == s[..|r|]
    ensures forall i :: |r| <= i < |s| ==> s[i] == '\n' || s[i] == '\r'
    ensures |s| >= 2 && s[|s| - 2] == '\r' && s[|s| - 1] == '\n' ==> r == s[..|s| - 2]
    ensures (!(|s| >= 2 && s[|s| - 2] == '\r' && s[|s| - 1] == '\n') && |s| >= 1 &&
             (s[|s| - 1] == '\n' || s[|s| - 1] == '\r')) ==> r == s[..|s| - 1]
    ensures |s| == 0 || (s[|s| - 1] != '\n' && s[|s| - 1] != '\r') ==> r == s
  {
    if |s| >= 2 && s[|s| - 2..] == "\r\n" then s[..|s| - 2]
    else if |s| >= 1 && (s[|s| - 1] == '\n' || s[|s| - 1] == '\r') then s[..|s| - 1]
    else s
  }

  /** What `chomp` removes is whitespace, so chomping before dropping whitespace makes no difference. */
  lemma ChompThenRemoveWhitespace(s: string)
    ensures RemoveWhitespace(Chomp(s)) == RemoveWhitespace(s)
  {
    var r := Chomp(s);
    var tail := s[|r|..];
    assert s == r + tail;
    RemoveWhitespaceConcat(r, tail);
    if |tail| == 1 {
      assert tail == [tail[0]] && IsWhitespace(tail[0]);
    } else if |tail| == 2 {
      assert tail == [tail[0]] + [tail[1]] && IsWhitespace(tail[0]) && IsWhitespace(tail[1]);
      RemoveWhitespaceConcat([tail[0]], [tail[1]]);
    }
  }

  /** The length of the run of non-whitespace characters that starts `s`. */
  function WordLength(s: string): (n: nat)
    ensures n <= |s|
    ensures forall i :: 0 <= i < n ==> !IsWhitespace(s[i])
    ensures n < |s| ==> IsWhitespace(s[n])
  {
    if s == [] || IsWhitespace(s[0]) then 0 else 1 + WordLength(s[1..])
  }

  /** `split(" ")` (awk-style): the maximal runs of non-whitespace characters, in order;
      leading, trailing and repeated whitespace yields no empty pieces. */
  function Words(s: string): (ws: seq<string>)
    ensures forall k :: 0 <= k < |ws| ==> |ws[k]| > 0 && NoWhitespace(ws[k])
    decreases |s|
  {
    if s == [] then []
    else if IsWhitespace(s[0]) then Words(s[1..])
    else
      var n := WordLength(s);
      [s[..n]] + Words(s[n..])
  }

  /** Joining the pieces of `split(" ")` gives the string with its whitespace removed:
      splitting loses whitespace and nothing else. */
  lemma {:induction false} WordsJoin(s: string)
    ensures Sequences.Flatten(Words(s)) == RemoveWhitespace(s)
    decreases |s|
  {
    if s != [] {
      if IsWhitespace(s[0]) {
        WordsJoin(s[1..]);
      } else {
        var n := WordLength(s);
        WordsJoin(s[n..]);
        assert s == s[..n] + s[n..];
        RemoveWhitespaceConcat(s[..n], s[n..]);
        RemoveWhitespaceOfClean(s[..n]);
        assert [s[..n]] + Words(s[n..]) == Words(s);
        assert ([s[..n]] + Words(s[n..]))[1..] == Words(s[n..]);
      }
    }
  }

  /** `WordLength` is determined by the first whitespace character. */
  lemma WordLengthIs(s: string, m: nat)
    requires m <= |s| && (m < |s| ==> IsWhitespace(s[m]))
    requires forall i :: 0 <= i < m ==> !IsWhitespace(s[i])
    ensures WordLength(s) == m
  {
  }

  /** `split(" ")` cuts at every whitespace character: the pieces on either side of one are
      split independently and nothing joins across it. */
  lemma {:induction false} WordsAtWhitespace(a: string, c: char, b: string)
    requires IsWhitespace(c)
    ensures Words(a + [c] + b) == Words(a) + Words(b)
    decreases |a|
  {
    if a == [] {
      assert a + [c] + b == [c] + b && ([c] + b)[1..] == b;
    } else if IsWhitespace(a[0]) {
      assert (a + [c] + b)[1..] == a[1..] + [c] + b;
      WordsAtWhitespace(a[1..], c, b);
    } else if WordLength(a) < |a| {
      var m := WordLength(a);
      WordsAtWhitespace(a[m..], c, b);
      WordInsideLeft(a, c, b);
    } else {
      WordEndsAtSeparator(a, c, b);
    }
  }

  lemma WordInsideLeft(a: string, c: char, b: string)
    requires a != [] && !IsWhitespace(a[0]) && WordLength(a) < |a|
    requires Words(a[WordLength(a)..] + [c] + b) == Words(a[WordLength(a)..]) + Words(b)
    ensures Words(a + [c] + b) == Words(a) + Words(b)
  {
    var s, m := a + [c] + b, WordLength(a);
    assert s[m] == a[m];
    assert forall i :: 0 <= i < m ==> s[i] == a[i];
    WordLengthIs(s, m);
    assert s[..m] == a[..m];
    assert s[m..] == a[m..] + [c] + b;
    WordsStep(s);
    WordsStep(a);
  }

  /** A string that starts with a word splits into that word and the split of the rest. */
  lemma WordsStep(s: string)
    requires s != [] && !IsWhitespace(s[0])
    ensures Words(s) == [s[..WordLength(s)]] + Words(s[WordLength(s)..])
  {
  }

  lemma WordEndsAtSeparator(a: string, c: char, b: string)
    requires a != [] && !IsWhitespace(a[0]) && WordLength(a) == |a| && IsWhitespace(c)
    ensures Words(a + [c] + b) == Words(a) + Words(b)
  {
    var s, m := a + [c] + b, |a|;
    assert s[m] == c;
    WordLengthIs(s, m);
    assert s[..m] == a && a[..m] == a && a[m..] == [];
    assert s[m..] == [c] + b && ([c] + b)[1..] == b;
    assert Words(s) == [s[..m]] + Words(s[m..]);
    assert Words(a) == [a[..m]] + Words(a[m..]);
  }

  /** A string of whitespace only splits into no pieces. */
  lemma {:induction false} WordsOfBlank(s: string)
    requires forall i :: 0 <= i < |s| ==> IsWhitespace(s[i])
    ensures Words(s) == []
    decreases |s|
  {
    if s != [] {
      WordsOfBlank(s[1..]);
    }
  }

  /** A string without whitespace splits into itself alone. */
  lemma SingleWord(s: string)
    requires s != [] && NoWhitespace(s)
    ensures Words(s) == [s]
  {
    assert !IsWhitespace(s[0]);
    assert s[..|s|] == s && s[|s|..] == [];
    assert Words(s) == [s[..|s|]] + Words(s[|s|..]);
  }

  /** `pat` occurs in `s` starting at index `k`. */
  predicate OccursAt(s: string, pat: string, k: nat) {
    k + |pat| <= |s| && s[k..k + |pat|] == pat
  }

  /** The first index at or after `from` where `pat` occurs, as Ruby's `index` finds it. */
  function IndexFrom(s: string, pat: string, from: nat): (r: Option<nat>)
    ensures r.Some? ==> from <= r.value && OccursAt(s, pat, r.value)
    ensures r.Some? ==> forall j :: from <= j < r.value ==> !OccursAt(s, pat, j)
    ensures r.None? ==> forall j :: from <= j ==> !OccursAt(s, pat, j)
    decreases |s| - from
  {
    if from + |pat| > |s| then None
    else if s[from..from + |pat|] == pat then Some(from)
    else IndexFrom(s, pat, from + 1)
  }

  /** The first occurrence of `pat` in `s`, if any. */
  function IndexOf(s: string, pat: string): (r: Option<nat>)
    ensures r.Some? ==> OccursAt(s, pat, r.value) && forall j :: 0 <= j < r.value ==> !OccursAt(s, pat, j)
    ensures r.None? ==> forall j :: !OccursAt(s, pat, j)
  {
    IndexFrom(s, pat, 0)
  }

  /** Ruby's `include?`: `pat` occurs somewhere in `s`. */
  predicate Contains(s: string, pat: string) {
    IndexOf(s, pat).Some?
  }

  lemma ContainsMeans(s: string, pat: string)
    ensures Contains(s, pat) <==> exists k :: OccursAt(s, pat, k)
  {
    if Contains(s, pat) {
      assert OccursAt(s, pat, IndexOf(s, pat).value);
    }
  }

  /** Ruby's `sub` with a string pattern: the first occurrence of `pat` is replaced by `rep`;
      a string without `pat` is returned unchanged. */
  function SubFirst(s: string, pat: string, rep: string): (r: string)
    ensures !Contains(s, pat) ==> r == s
    ensures Contains(s, pat) ==> |r| == |s| - |pat| + |rep|
    ensures Contains(s, pat) ==>
      exists k: nat :: OccursAt(s, pat, k) && (forall j :: 0 <= j < k ==> !OccursAt(s, pat, j)) &&
                  r == s[..k] + rep + s[k + |pat|..]
  {
    match IndexOf(s, pat)
    case None => s
    case Some(k) => s[..k] + rep + s[k + |pat|..]
  }
}
