/** The older, single-answer `SearchHelper` mixin: one Google query whose first fitting result
    is the answer, and Clearbit's first suggestion when the Google request fails. */
module LegacySearchHelper {
  import opened Wrappers
  import opened Text
  import SearchHelper

  type Item = SearchHelper.Item

  /** The `NoMethodError` raised when `format_google_response` reads a field of `nil`: the
      result list is empty, or no result's display link contains the name. */
  datatype LegacyError = NilDereference

  const NotFoundMessage: string := "Could not find domain."

  /** The name sent to the services: `chomp`, then every whitespace character removed. Unlike
      `Request#initialize`, no `downcase`. */
  function LegacyName(raw: string): (name: string)
    ensures NoWhitespace(name)
    ensures name == RemoveWhitespace(raw)
  {
    ChompThenRemoveWhitespace(raw);
    RemoveWhitespace(Chomp(raw))
  }

  /** `find { |item| item["link"] if item["displayLink"].include?(name) }`: the first result
      whose display link contains `name`, exactly as written (no case folding). */
  function FirstMatch(name: string, items: seq<Item>): (r: Option<Item>)
    ensures r.None? <==> forall k :: 0 <= k < |items| ==> !Contains(items[k].displayLink, name)
    ensures r.Some? ==> exists k :: (
      && 0 <= k < |items| && items[k] == r.value
      && Contains(r.value.displayLink, name)
      && forall j :: 0 <= j < k ==> !Contains(items[j].displayLink, name))
  {
    if items == [] then None
    else if Contains(items[0].displayLink, name) then Some(items[0])
    else
      var r := FirstMatch(name, items[1..]);
      assert r.Some? ==> exists k :: (
        && 0 <= k < |items| && items[k] == r.value
        && Contains(r.value.displayLink, name)
        && forall j :: 0 <= j < k ==> !Contains(items[j].displayLink, name)) by {
        if r.Some? {
          var k :| 0 <= k < |items[1..]| && items[1..][k] == r.value
            && Contains(r.value.displayLink, name)
            && forall j :: 0 <= j < k ==> !Contains(items[1..][j].displayLink, name);
          assert items[k + 1] == r.value;
          forall j | 0 <= j < k + 1 ensures !Contains(items[j].displayLink, name) {
            if j > 0 {
              assert items[j] == items[1..][j - 1];
            }
          }
        }
      }
      r
  }

  /** `format_google_response`: the first result's link when its display link contains the
      lowercased name; otherwise the link of the first result whose display link contains the
      name as given; a field read of `nil` when there is no first result or no such result. */
  function FormatGoogleResponse(name: string, items: seq<Item>): (r: Result<string, LegacyError>)
    ensures items == [] ==> r == Failure(NilDereference)
    ensures items != [] && Contains(items[0].displayLink, Lower(name)) ==> r == Success(items[0].link)
    ensures items != [] && !Contains(items[0].displayLink, Lower(name)) ==>
      (r.Success? <==> FirstMatch(name, items).Some?)
    ensures items != [] && !Contains(items[0].displayLink, Lower(name)) ==>
      var kept := SearchHelper.Matching(name, items);
      r == if kept == [] then Failure(NilDereference) else Success(kept[0].link)
    ensures r.Success? ==> exists k :: 0 <= k < |items| && r.value == items[k].link
  {
    if items == [] then Failure(NilDereference)
    else if Contains(items[0].displayLink, Lower(name)) then Success(items[0].link)
    else
      FirstMatchIsFirstKept(name, items);
      match FirstMatch(name, items)
      case None => Failure(NilDereference)
      case Some(item) => Success(item.link)
  }

  /** `fallback_to_clearbit_api`: the first suggested domain, or the not-found message when the
      request fails or suggests nothing. It never raises. */
  function FallbackToClearbitApi(response: Option<seq<string>>): (domain: string)
    ensures response.Some? && response.value != [] ==> domain == response.value[0]
    ensures response.None? || response.value == [] ==> domain == NotFoundMessage
  {
    match response
    case None => NotFoundMessage
    case Some(domains) => if domains == [] then NotFoundMessage else domains[0]
  }

  /** `make_request_and_fetch_domain`: Google's answer for the cleaned name when the Google
      request succeeds, Clearbit's otherwise. */
  function MakeRequestAndFetchDomain(raw: string, google: Option<seq<Item>>, clearbit: Option<seq<string>>)
    : (r: Result<string, LegacyError>)
    ensures google.None? ==> r == Success(FallbackToClearbitApi(clearbit))
    ensures google.Some? ==> r == FormatGoogleResponse(RemoveWhitespace(raw), google.value)
  {
    match google
    case None => Success(FallbackToClearbitApi(clearbit))
    case Some(items) => FormatGoogleResponse(LegacyName(raw), items)
  }

  /** The legacy search picks the first of the results the newer search keeps. */
  lemma {:induction false} FirstMatchIsFirstKept(name: string, items: seq<Item>)
    ensures FirstMatch(name, items) ==
      (var kept := SearchHelper.Matching(name, items); if kept == [] then None else Some(kept[0]))
  {
    if items != [] {
      FirstMatchIsFirstKept(name, items[1..]);
    }
  }

  /** For a name already in lower case the two lookups coincide: the answer is the link of the
      first result the newer search keeps, and a field read of `nil` when it keeps none. */
  lemma LowerCaseNameTakesFirstKept(name: string, items: seq<Item>)
    requires IsLowerCase(name) && items != []
    ensures var kept := SearchHelper.Matching(name, items);
      FormatGoogleResponse(name, items) ==
        if kept == [] then Failure(NilDereference) else Success(kept[0].link)
  {
    LowerOfLowerCase(name);
    FirstMatchIsFirstKept(name, items);
    if Contains(items[0].displayLink, name) {
      assert FirstMatch(name, items) == Some(items[0]);
    }
  }

  /** With a Google failure the legacy search always answers, with Clearbit's first domain or
      the not-found message. */
  lemma GoogleFailureNeverRaises(raw: string, clearbit: Option<seq<string>>)
    ensures MakeRequestAndFetchDomain(raw, None, clearbit).Success?
    ensures var d := MakeRequestAndFetchDomain(raw, None, clearbit).value;
      d == NotFoundMessage || (clearbit.Some? && d in clearbit.value)
  {
  }

  /** A pattern whose first character is absent from `s` does not occur in it. */
  lemma AbsentFirstChar(s: string, pat: string)
    requires pat != [] && forall i :: 0 <= i < |s| ==> s[i] != pat[0]
    ensures !Contains(s, pat)
  {
    forall k: nat ensures !OccursAt(s, pat, k) {
      if k + |pat| <= |s| {
        assert s[k..k + |pat|][0] == s[k];
      }
    }
    ContainsMeans(s, pat);
  }

  /** The casing of the name changes the answer: with results for "www.bbc.co.uk" and then
      "microsoft.com", "microsoft" finds "https://www.microsoft.com", while "Microsoft" misses
      the first result under `downcase`, finds nothing under the case-sensitive `find` and
      raises. */
  lemma CaseOfNameMatters(upper: string, lower: string, first: Item, second: Item)
    requires upper == "Microsoft" && lower == "microsoft"
    requires first == SearchHelper.Item("https://www.bbc.co.uk", "www.bbc.co.uk")
    requires second == SearchHelper.Item("https://www.microsoft.com", "microsoft.com")
    ensures FormatGoogleResponse(lower, [first, second]) == Success(second.link)
    ensures FormatGoogleResponse(upper, [first, second]) == Failure(NilDereference)
  {
    UpperMicrosoftLowers(upper, lower);
    NoMicrosoftAtBbc(first.displayLink, lower, upper);
    MicrosoftShown(second.displayLink, lower, upper);
    CaseSplitsResults(upper, lower, first, second);
  }

  /** Two results where only the second shows the lower-case name, and neither the name as
      typed: the lower-case name finds the second, the typed name raises. */
  lemma CaseSplitsResults(upper: string, lower: string, first: Item, second: Item)
    requires Lower(upper) == lower
    requires !Contains(first.displayLink, lower) && !Contains(first.displayLink, upper)
    requires Contains(second.displayLink, lower) && !Contains(second.displayLink, upper)
    ensures FormatGoogleResponse(lower, [first, second]) == Success(second.link)
    ensures FormatGoogleResponse(upper, [first, second]) == Failure(NilDereference)
  {
    assert Lower(lower) == lower by {
      LowerOfLowerCase(lower);
    }
    MissThenSecond(lower, first, second);
    MissThenSecond(upper, first, second);
  }

  /** When the first of two results misses the lowercased name, the answer is decided by the
      case-sensitive search over both. */
  lemma MissThenSecond(name: string, first: Item, second: Item)
    requires !Contains(first.displayLink, Lower(name))
    ensures FormatGoogleResponse(name, [first, second]) ==
      if Contains(first.displayLink, name) then Success(first.link)
      else if Contains(second.displayLink, name) then Success(second.link)
      else Failure(NilDereference)
  {
    var items := [first, second];
    assert items[0] == first && items[1..] == [second] && [second][1..] == [];
    assert FirstMatch(name, [second]) ==
      if Contains(second.displayLink, name) then Some(second) else FirstMatch(name, []);
  }

  lemma UpperMicrosoftLowers(upper: string, lower: string)
    requires upper == "Microsoft" && lower == "microsoft"
    ensures Lower(upper) == lower
  {
    assert LowerChar('M') == 'm';
    forall i | 0 <= i < |upper| ensures Lower(upper)[i] == lower[i] {
      if i > 0 {
        assert !IsUpper(upper[i]);
      }
    }
  }

  lemma NoMicrosoftAtBbc(shown: string, lower: string, upper: string)
    requires shown == "www.bbc.co.uk" && lower == "microsoft" && upper == "Microsoft"
    ensures !Contains(shown, lower) && !Contains(shown, upper)
  {
    AbsentFirstChar(shown, lower);
    AbsentFirstChar(shown, upper);
  }

  lemma MicrosoftShown(shown: string, lower: string, upper: string)
    requires shown == "microsoft.com" && lower == "microsoft" && upper == "Microsoft"
    ensures Contains(shown, lower) && !Contains(shown, upper)
  {
    assert OccursAt(shown, lower, 0) by {
      assert shown[0..9] == lower;
    }
    ContainsMeans(shown, lower);
    AbsentFirstChar(shown, upper);
  }
}
