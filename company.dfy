/** `Company`: a candidate domain with its tags and the two similarity scores computed for it. */
module Companies {
  import opened Wrappers
  import opened Text
  import Sequences
  import Jaccard
  import Levenstein

  /** `flat_map { |x| x.split(" ") }`: every attribute split on whitespace, the pieces in order. */
  function SplitAll(attributes: seq<string>): (pieces: seq<string>)
    ensures forall k :: 0 <= k < |pieces| ==> |pieces[k]| > 0 && NoWhitespace(pieces[k])
  {
    if attributes == [] then [] else Words(attributes[0]) + SplitAll(attributes[1..])
  }

  /** `parse_attributes`: nil or an empty list gives no tags; otherwise the whitespace-separated
      pieces of every attribute, in order, each lowercased. */
  function ParseAttributes(attributes: Option<seq<string>>): (tags: seq<string>)
    ensures attributes.None? || attributes.value == [] ==> tags == []
    ensures forall k :: 0 <= k < |tags| ==> |tags[k]| > 0 && NoWhitespace(tags[k]) && IsLowerCase(tags[k])
  {
    if attributes.None? || attributes.value == [] then []
    else
      var pieces := SplitAll(attributes.value);
      seq(|pieces|, k requires 0 <= k < |pieces| => Lower(pieces[k]))
  }

  lemma {:induction false} SplitAllJoin(attributes: seq<string>)
    ensures Sequences.Flatten(SplitAll(attributes)) == RemoveWhitespace(Sequences.Flatten(attributes))
  {
    if attributes != [] {
      SplitAllJoin(attributes[1..]);
      WordsJoin(attributes[0]);
      Sequences.FlattenConcat(Words(attributes[0]), SplitAll(attributes[1..]));
      RemoveWhitespaceConcat(attributes[0], Sequences.Flatten(attributes[1..]));
    }
  }

  lemma {:induction false} FlattenLower(pieces: seq<string>)
    ensures Sequences.Flatten(seq(|pieces|, k requires 0 <= k < |pieces| => Lower(pieces[k]))) ==
            Lower(Sequences.Flatten(pieces))
  {
    var lowered := seq(|pieces|, k requires 0 <= k < |pieces| => Lower(pieces[k]));
    if pieces != [] {
      FlattenLower(pieces[1..]);
      assert lowered[1..] == seq(|pieces[1..]|, k requires 0 <= k < |pieces[1..]| => Lower(pieces[1..][k]));
      LowerConcat(pieces[0], Sequences.Flatten(pieces[1..]));
    }
  }

  /** Joined together, the tags are the attributes joined together, lowercased and without
      whitespace: parsing drops whitespace and case, and keeps every other character in order. */
  lemma ParseAttributesJoin(attributes: seq<string>)
    ensures Sequences.Flatten(ParseAttributes(Some(attributes))) ==
            Lower(RemoveWhitespace(Sequences.Flatten(attributes)))
  {
    if attributes != [] {
      SplitAllJoin(attributes);
      FlattenLower(SplitAll(attributes));
    }
  }

  /** Attributes that are already single lower-case words are kept as they are. */
  lemma {:induction false} ParseCleanAttributes(attributes: seq<string>)
    requires forall k :: 0 <= k < |attributes| ==> |attributes[k]| > 0 && NoWhitespace(attributes[k]) && IsLowerCase(attributes[k])
    ensures ParseAttributes(Some(attributes)) == attributes
  {
    if attributes != [] {
      SplitAllOfWords(attributes);
      forall k | 0 <= k < |attributes| ensures Lower(attributes[k]) == attributes[k] {
        LowerOfLowerCase(attributes[k]);
      }
    }
  }

  lemma {:induction false} SplitAllOfWords(attributes: seq<string>)
    requires forall k :: 0 <= k < |attributes| ==> |attributes[k]| > 0 && NoWhitespace(attributes[k])
    ensures SplitAll(attributes) == attributes
  {
    if attributes != [] {
      SingleWord(attributes[0]);
      SplitAllOfWords(attributes[1..]);
      assert attributes == [attributes[0]] + attributes[1..];
    }
  }

  /** `flat_map` is `map` followed by `flatten`: the pieces are each attribute's own split, joined. */
  lemma {:induction false} SplitAllIsWordsOfEach(attributes: seq<string>)
    ensures SplitAll(attributes) ==
      Sequences.Flatten(seq(|attributes|, k requires 0 <= k < |attributes| => Words(attributes[k])))
  {
    var each := seq(|attributes|, k requires 0 <= k < |attributes| => Words(attributes[k]));
    if attributes != [] {
      SplitAllIsWordsOfEach(attributes[1..]);
      assert each[1..] == seq(|attributes[1..]|, k requires 0 <= k < |attributes[1..]| => Words(attributes[1..][k]));
    }
  }

  /** An attribute is cut into separate tags at every whitespace character: "Cloud Computing"
      gives the tags of "Cloud" followed by the tags of "Computing". */
  lemma TagsSplitAtWhitespace(a: string, c: char, b: string)
    requires IsWhitespace(c)
    ensures ParseAttributes(Some([a + [c] + b])) == ParseAttributes(Some([a])) + ParseAttributes(Some([b]))
  {
    WordsAtWhitespace(a, c, b);
    OneAttribute(a + [c] + b);
    OneAttribute(a);
    OneAttribute(b);
    var wa, wb := Words(a), Words(b);
    assert Words(a + [c] + b) == wa + wb;
  }

  /** One attribute's tags are its lowercased pieces. */
  lemma OneAttribute(x: string)
    ensures ParseAttributes(Some([x])) == seq(|Words(x)|, k requires 0 <= k < |Words(x)| => Lower(Words(x)[k]))
  {
    assert [x][1..] == [];
    assert SplitAll([x]) == Words(x) + SplitAll([]);
    assert Words(x) + [] == Words(x);
  }

  /** The multi-word tag "Cloud Computing" becomes the two tags "cloud" and "computing". */
  lemma CloudComputingExample(attribute: string, first: string, second: string)
    requires attribute == "Cloud Computing" && first == "Cloud" && second == "Computing"
    ensures ParseAttributes(Some([attribute])) == ["cloud", "computing"]
  {
    assert attribute == first + [' '] + second;
    TagsSplitAtWhitespace(first, ' ', second);
    CapitalisedWord(first, "cloud");
    CapitalisedWord(second, "computing");
  }

  /** A capitalised single word becomes one lower-case tag. */
  lemma CapitalisedWord(word: string, tag: string)
    requires (word == "Cloud" && tag == "cloud") || (word == "Computing" && tag == "computing")
    ensures ParseAttributes(Some([word])) == [tag]
  {
    assert NoWhitespace(word);
    SingleWord(word);
    OneAttribute(word);
    assert LowerChar('C') == 'c';
    forall i | 0 <= i < |word| ensures Lower(word)[i] == tag[i] {
      if i > 0 {
        assert !IsUpper(word[i]);
      }
    }
    assert Lower(word) == tag;
    assert Words(word) == [word];
  }

  /** The length of the first '.'-separated field. */
  function FieldLength(s: string): (n: nat)
    ensures n <= |s| && (n < |s| ==> s[n] == '.')
    ensures forall i :: 0 <= i < n ==> s[i] != '.'
  {
    if s == [] || s[0] == '.' then 0 else 1 + FieldLength(s[1..])
  }

  /** `fetched_domain.downcase.split(".")[0]`: the lowercased text before the first '.'. Ruby's
      `split` drops trailing empty fields, so an empty domain or one made only of dots has no
      first field and gives nil. */
  function DomainRoot(domain: string): (root: Option<string>)
    ensures root.None? <==> forall i :: 0 <= i < |domain| ==> domain[i] == '.'
    ensures root.Some? ==> |root.value| <= |domain| && root.value == Lower(domain[..|root.value|])
    ensures root.Some? ==> (|root.value| < |domain| ==> domain[|root.value|] == '.') && '.' !in root.value
  {
    if forall i :: 0 <= i < |domain| ==> domain[i] == '.' then None
    else Some(Lower(domain[..FieldLength(domain)]))
  }

  class Company {
    const name: string
    const fetchedDomain: string
    /** The parsed tags (Ruby's `@attributes`). */
    const attributes: seq<string>
    var jaccardIndex: Jaccard.Quotient
    /** nil until `calculate_levenstein_distance` has run. */
    var levensteinDistance: Option<nat>
    /** 0.0 at first; nil after a calculation on which `generate` returned a bare integer. */
    var levensteinPercent: Option<real>

    /** `initialize(name, fetched_domain, attributes)`. */
    constructor (name: string, fetchedDomain: string, attributes: Option<seq<string>>)
      ensures this.name == name && this.fetchedDomain == fetchedDomain
      ensures this.attributes == ParseAttributes(attributes)
      ensures jaccardIndex == Jaccard.Exact(0.0) && levensteinPercent == Some(0.0)
      ensures levensteinDistance == None
    {
      this.name := name;
      this.fetchedDomain := fetchedDomain;
      this.attributes := ParseAttributes(attributes);
      jaccardIndex := Jaccard.Exact(0.0);
      levensteinPercent := Some(0.0);
      levensteinDistance := None;
    }

    /** `assign_category_jaccard_index`: the Jaccard index of the tags against the user's categories. */
    method AssignCategoryJaccardIndex(userCategories: seq<string>)
      modifies this`jaccardIndex
      ensures jaccardIndex == Jaccard.Index(attributes, userCategories)
      ensures unchanged(this`levensteinDistance, this`levensteinPercent)
    {
      jaccardIndex := Jaccard.Index(attributes, userCategories);
    }

    /** `calculate_levenstein_distance`: the edit distance from the search term to the domain's
        root, and its ratio to the root's length. A domain without a root makes `generate` read
        the length of nil, which raises; the fields are then left as they were. */
    method CalculateLevensteinDistance(userSearchTerm: string) returns (raised: bool)
      modifies this`levensteinDistance, this`levensteinPercent
      ensures raised <==> DomainRoot(fetchedDomain).None?
      ensures raised ==> unchanged(this)
      ensures !raised ==>
        var root := DomainRoot(fetchedDomain).value;
        var d := Levenstein.EditDistance(userSearchTerm, root);
        && levensteinDistance == Some(d)
        && levensteinPercent == if |userSearchTerm| > 0 && |root| > 0 then Some(d as real / |root| as real) else None
      ensures unchanged(this`jaccardIndex)
    {
      var root := DomainRoot(fetchedDomain);
      if root.None? {
        return true;
      }
      var outcome := Levenstein.Generate(userSearchTerm, root.value);
      match outcome {
        case Bare(n) =>
          // `@levenstein_distance, @levenstein_percent = n` leaves the second field nil
          levensteinDistance, levensteinPercent := Some(n), None;
        case Pair(d, ratio) =>
          levensteinDistance, levensteinPercent := Some(d), Some(ratio);
      }
      raised := false;
    }
  }

  /** A company built with nil or with no attributes has no tags. */
  method NoAttributesExample() returns (fromNil: seq<string>, fromEmpty: seq<string>)
    ensures fromNil == [] && fromEmpty == []
  {
    var a := new Company("Test Company", "test.com", None);
    var b := new Company("Test Company", "test.com", Some([]));
    fromNil, fromEmpty := a.attributes, b.attributes;
  }

  /** Tags ["test", "spec", "example"] against categories ["test", "internet", "random"] share one
      of five values, and "piratetesting" is nine edits away from the root "test" of "test.com". */
  method AssignScoresExample() returns (jaccard: Jaccard.Quotient, distance: Option<nat>)
    ensures jaccard == Jaccard.Exact(0.2) && distance == Some(9)
  {
    var tags: seq<string> := ["test", "spec", "example"];
    var categories: seq<string> := ["test", "internet", "random"];
    ExampleTagsParse(tags);
    var c := new Company("Test Company", "test.com", Some(tags));
    c.AssignCategoryJaccardIndex(categories);
    ScoresExampleIndex(tags, categories);
    TestDomainRoot();
    var raised := c.CalculateLevensteinDistance("piratetesting");
    Levenstein.PirateTestingExample();
    jaccard, distance := c.jaccardIndex, c.levensteinDistance;
  }

  lemma TestDomainRoot()
    ensures DomainRoot("test.com") == Some("test")
  {
    var d := "test.com";
    assert d[0] != '.';
    assert FieldLength(d) == 4;
    assert d[..4] == "test";
    LowerOfLowerCase("test");
  }

  lemma ExampleTagsParse(tags: seq<string>)
    requires tags == ["test", "spec", "example"]
    ensures ParseAttributes(Some(tags)) == tags
  {
    assert forall k :: 0 <= k < |tags| ==> |tags[k]| > 0 && NoWhitespace(tags[k]) && IsLowerCase(tags[k]) by {
      assert tags[0] == "test" && tags[1] == "spec" && tags[2] == "example";
    }
    ParseCleanAttributes(tags);
  }

  lemma ScoresExampleIndex(tags: seq<string>, categories: seq<string>)
    requires tags == ["test", "spec", "example"] && categories == ["test", "internet", "random"]
    ensures Jaccard.Index(tags, categories) == Jaccard.Exact(0.2)
  {
    var t, c := Sequences.Elems(tags), Sequences.Elems(categories);
    assert t == {"test", "spec", "example"} by {
      assert tags[0] == "test" && tags[1] == "spec" && tags[2] == "example";
    }
    assert c == {"test", "internet", "random"} by {
      assert categories[0] == "test" && categories[1] == "internet" && categories[2] == "random";
    }
    assert "spec" != "test" && "example" != "test" && "spec" != "example";
    assert "internet" != "test" && "random" != "test" && "internet" != "random";
    assert t * c == {"test"};
    assert t + c == {"test", "spec", "example", "internet", "random"};
    assert |t + c| == 5;
    assert 1 as real / 5 as real == 0.2;
    Jaccard.IndexFromCards(tags, categories, 1, 5);
  }
}
