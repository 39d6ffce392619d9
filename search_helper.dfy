/** `SearchHelper::Request` and `SearchHelper::ProcessSimilarity`: the query name, the candidate
    domains from the two discovery services, their merge, and one `Company` per candidate.
    The services' HTTP responses are inputs: `None` for a response that is not a success. */
module SearchHelper {
  import opened Wrappers
  import opened Text
  import opened Sequences
  import Companies

  /** One search result: its `link` and its `displayLink`. */
  datatype Item = Item(link: string, displayLink: string)

  /** The exceptions that escape `fetch_domain`: the `RuntimeError` raised on an empty candidate
      list, the `NoMethodError` raised when a kept search link has no host, and the
      `JSON::ParserError` raised when Clearbit's body is not JSON. */
  datatype Error = RuntimeError(message: string) | NilHost(link: string) | UnparsableBody

  /** A Clearbit reply: whether the request succeeded, and its body read as the list of suggested
      domains, or `None` when the body is not JSON. */
  datatype ClearbitReply = ClearbitReply(success: bool, body: Option<seq<string>>)

  const NoDomainsMessage: string := "No domains found from APIs, check rate limits"

  /** A `Request`; its only state is the normalised name. */
  datatype Request = Request(name: string)

  /** `Request#initialize`: `chomp`, then every whitespace character removed, then `downcase`. */
  function NewRequest(raw: string): (request: Request)
    ensures NoWhitespace(request.name) && IsLowerCase(request.name)
    ensures request.name == Lower(RemoveWhitespace(raw))
  {
    ChompThenRemoveWhitespace(raw);
    Request(Lower(RemoveWhitespace(Chomp(raw))))
  }

  /** The first line of `fetch_domain`: categories are lowercased when given, nil stays nil. */
  function NormalizeCategories(attributes: Option<seq<string>>): (r: Option<seq<string>>)
    ensures r.None? <==> attributes.None?
    ensures r.Some? ==> |r.value| == |attributes.value|
    ensures r.Some? ==> forall k :: 0 <= k < |r.value| ==>
      IsLowerCase(r.value[k]) && Lower(r.value[k]) == Lower(attributes.value[k])
  {
    match attributes
    case None => None
    case Some(categories) =>
      var lowered := seq(|categories|, k requires 0 <= k < |categories| => Lower(categories[k]));
      assert forall k :: 0 <= k < |lowered| ==> Lower(lowered[k]) == lowered[k] by {
        forall k | 0 <= k < |lowered| ensures Lower(lowered[k]) == lowered[k] {
          LowerOfLowerCase(lowered[k]);
        }
      }
      Some(lowered)
  }

  predicate IsHostDelimiter(c: char) {
    c == '/' || c == '?' || c == '#' || c == ':'
  }

  function HostLength(s: string): (n: nat)
    ensures n <= |s| && (n < |s| ==> IsHostDelimiter(s[n]))
    ensures forall i :: 0 <= i < n ==> !IsHostDelimiter(s[i])
  {
    if s == [] || IsHostDelimiter(s[0]) then 0 else 1 + HostLength(s[1..])
  }

  /** The host part of an absolute link, in the reading this model gives `URI.parse(link).host`:
      the text after the first "://" up to the next '/', '?', '#' or ':'. A link without "://"
      has no host (nil). */
  function Host(link: string): (host: Option<string>)
    ensures host.None? <==> !Contains(link, "://")
    ensures host.Some? ==> forall i :: 0 <= i < |host.value| ==> !IsHostDelimiter(host.value[i])
  {
    match IndexOf(link, "://")
    case None => None
    case Some(k) =>
      var rest := link[k + 3..];
      Some(rest[..HostLength(rest)])
  }

  /** `convert_link_to_domain`: the link's host with the first "www." removed, wherever in the
      host it occurs; nil when the link has no host (the `sub` call then raises). */
  function ConvertLinkToDomain(link: string): (domain: Option<string>)
    ensures domain.None? <==> Host(link).None?
    ensures domain.Some? && !Contains(Host(link).value, "www.") ==> domain.value == Host(link).value
    ensures domain.Some? && Contains(Host(link).value, "www.") ==> |domain.value| == |Host(link).value| - 4
  {
    match Host(link)
    case None => None
    case Some(host) => Some(SubFirst(host, "www.", ""))
  }

  /** A host that starts with "www." loses exactly that prefix. */
  lemma LeadingWwwRemoved(host: string)
    ensures SubFirst("www." + host, "www.", "") == host
  {
    var s := "www." + host;
    assert OccursAt(s, "www.", 0) by {
      assert s[0..4] == "www.";
    }
    assert s[4..] == host;
  }

  /** An occurrence of "www." inside the host is removed as well: "blog.www.example.com"
      becomes "blog.example.com". */
  lemma InnerWwwRemoved(host: string)
    requires host == "blog.www.example.com"
    ensures SubFirst(host, "www.", "") == "blog.example.com"
  {
    assert OccursAt(host, "www.", 5) by {
      assert host[5..9] == "www.";
    }
    forall j | 0 <= j < 5 ensures !OccursAt(host, "www.", j) {
      assert host[j] != 'w';
      assert host[j..j + 4][0] == host[j];
    }
    assert IndexOf(host, "www.") == Some(5);
    assert host[..5] + host[9..] == "blog.example.com";
  }

  /** `select { item["displayLink"].include?(name) }`: the items whose display link contains the
      name, in their original order. */
  function Matching(name: string, items: seq<Item>): (kept: seq<Item>)
    ensures |kept| <= |items|
    ensures forall it :: it in kept <==> it in items && Contains(it.displayLink, name)
  {
    Filter(items, (it: Item) => Contains(it.displayLink, name))
  }

  /** `map { convert_link_to_domain(item["link"]) }`: fails on the first link without a host. */
  function LinksToDomains(items: seq<Item>): (r: Result<seq<string>, Error>)
    ensures r.Success? <==> forall k :: 0 <= k < |items| ==> Host(items[k].link).Some?
    ensures r.Success? ==> |r.value| == |items|
    ensures r.Success? ==> forall k :: 0 <= k < |items| ==> ConvertLinkToDomain(items[k].link) == Some(r.value[k])
    ensures r.Failure? ==> exists k :: 0 <= k < |items| && r.error == NilHost(items[k].link) && Host(items[k].link).None?
  {
    if items == [] then Success([])
    else
      match ConvertLinkToDomain(items[0].link)
      case None => Failure(NilHost(items[0].link))
      case Some(domain) =>
        match LinksToDomains(items[1..])
        case Failure(e) => Failure(e)
        case Success(rest) => Success([domain] + rest)
  }

  /** `fetch_domain_names_from_google`: a failed response contributes nothing; a successful one
      contributes the domains of the matching items, in order. */
  function GoogleDomains(name: string, response: Option<seq<Item>>): (r: Result<seq<string>, Error>)
    ensures response.None? ==> r == Success([])
    ensures response.Some? ==> r == LinksToDomains(Matching(name, response.value))
  {
    match response
    case None => Success([])
    case Some(items) => LinksToDomains(Matching(name, items))
  }

  /** `fetch_domain_names_from_clearbit`: the body is parsed before the status is looked at, so a
      body that is not JSON raises whatever the status; a failed or empty reply contributes
      nothing. */
  function ClearbitDomains(response: ClearbitReply): (r: Result<seq<string>, Error>)
    ensures r.Failure? <==> response.body.None?
    ensures r.Failure? ==> r.error == UnparsableBody
    ensures response.body.Some? && !response.success ==> r == Success([])
    ensures response.body.Some? && response.success ==> r == Success(response.body.value)
  {
    match response.body
    case None => Failure(UnparsableBody)
    case Some(info) => if response.success && info != [] then Success(info) else Success([])
  }

  /** `fetch_domains_in_parallel`: the block (Google's domains, then Clearbit's) runs twice; an
      exception in either step escapes, Google's first. */
  function FetchDomainsInParallel(name: string, google: Option<seq<Item>>, clearbit: ClearbitReply)
    : (r: Result<seq<seq<string>>, Error>)
    ensures r.Failure? <==> GoogleDomains(name, google).Failure? || ClearbitDomains(clearbit).Failure?
    ensures GoogleDomains(name, google).Failure? ==> r == Failure(GoogleDomains(name, google).error)
    ensures GoogleDomains(name, google).Success? && ClearbitDomains(clearbit).Failure? ==>
      r == Failure(ClearbitDomains(clearbit).error)
    ensures r.Success? ==>
      var both := GoogleDomains(name, google).value + ClearbitDomains(clearbit).value;
      r.value == [both, both]
  {
    match GoogleDomains(name, google)
    case Failure(e) => Failure(e)
    case Success(fromGoogle) =>
      match ClearbitDomains(clearbit)
      case Failure(e) => Failure(e)
      case Success(fromClearbit) =>
        var both := fromGoogle + fromClearbit;
        Success([both, both])
  }

  /** `fetch_domains_in_parallel.flatten.uniq`: the candidates are Google's domains followed by
      Clearbit's, each kept once, in the order in which they are first seen. */
  function AllSimilarDomains(name: string, google: Option<seq<Item>>, clearbit: ClearbitReply)
    : (r: Result<seq<string>, Error>)
    ensures r.Failure? <==> GoogleDomains(name, google).Failure? || ClearbitDomains(clearbit).Failure?
    ensures r.Failure? ==>
      r.error == if GoogleDomains(name, google).Failure? then GoogleDomains(name, google).error else UnparsableBody
    ensures r.Success? ==>
      var fromGoogle, fromClearbit := GoogleDomains(name, google).value, ClearbitDomains(clearbit).value;
      var both := fromGoogle + fromClearbit;
      && r.value == Dedup(both)
      && NoDups(r.value)
      && Elems(r.value) == Elems(fromGoogle) + Elems(fromClearbit)
      && FirstSeenOrder(r.value, both)
  {
    match FetchDomainsInParallel(name, google, clearbit)
    case Failure(e) => Failure(e)
    case Success(runs) =>
      var both := runs[0];
      assert Flatten(runs) == both + both by {
        assert runs == [both, both];
        assert runs[1..] == [both] && runs[1..][1..] == [];
        assert Flatten(runs[1..][1..]) == [];
        assert Flatten(runs[1..]) == both + [];
      }
      DedupAbsorbs(both, both);
      DedupFirstSeenOrder(both);
      Success(Dedup(Flatten(runs)))
  }

  /** A Clearbit body that is not JSON makes the whole merge raise, even on a failed request:
      a failing Clearbit request does not always contribute nothing. */
  lemma UnparsableClearbitRaises(name: string, google: Option<seq<Item>>, success: bool)
    requires GoogleDomains(name, google).Success?
    ensures AllSimilarDomains(name, google, ClearbitReply(success, None)) == Failure(UnparsableBody)
  {
  }

  /** A failed Clearbit request whose body is JSON contributes nothing. */
  lemma FailedClearbitAddsNothing(name: string, google: Option<seq<Item>>, body: seq<string>)
    requires GoogleDomains(name, google).Success?
    ensures AllSimilarDomains(name, google, ClearbitReply(false, Some(body))) ==
      Success(Dedup(GoogleDomains(name, google).value))
  {
    assert GoogleDomains(name, google).value + [] == GoogleDomains(name, google).value;
  }

  /** When both services agree on a domain, it is kept exactly once. */
  lemma {:induction false} SharedDomainKeptOnce(google: seq<string>, clearbit: seq<string>, d: string)
    requires d in google && d in clearbit
    ensures |set k | 0 <= k < |Dedup(google + clearbit)| && Dedup(google + clearbit)[k] == d| == 1
  {
    var r := Dedup(google + clearbit);
    assert d in Elems(r);
    var i :| 0 <= i < |r| && r[i] == d;
    assert (set k | 0 <= k < |r| && r[k] == d) == {i};
  }

  /** When Google's one result matches and its domain is Clearbit's one domain, that domain is
      the only candidate: the run being repeated and the two services agreeing add nothing. */
  lemma AgreeingServices(name: string, item: Item, d: string)
    requires Contains(item.displayLink, name)
    requires ConvertLinkToDomain(item.link) == Some(d)
    ensures AllSimilarDomains(name, Some([item]), ClearbitReply(true, Some([d]))) == Success([d])
  {
    assert Matching(name, [item]) == [item];
    assert LinksToDomains([item]) == Success([d]) by {
      assert [item][0] == item;
      assert Host(item.link).Some?;
      var r := LinksToDomains([item]);
      assert r.Success? && |r.value| == 1 && r.value[0] == d;
      assert r.value == [d];
    }
    assert GoogleDomains(name, Some([item])) == Success([d]);
    assert ClearbitDomains(ClearbitReply(true, Some([d]))) == Success([d]);
    assert [d] + [d] == [d, d];
    DedupPair(d);
  }

  /** The documented case: Google's result "https://www.microsoft.com", shown as "microsoft.com",
      and Clearbit's "microsoft.com" leave the one candidate "microsoft.com". */
  lemma MicrosoftExample(link: string, domain: string, name: string)
    requires link == "https://www.microsoft.com" && domain == "microsoft.com" && name == "microsoft"
    ensures AllSimilarDomains(name, Some([Item(link, domain)]), ClearbitReply(true, Some([domain]))) == Success([domain])
  {
    MicrosoftLinkShape(link, domain);
    MicrosoftDomainPlain(domain);
    MicrosoftDisplayMatches(domain, name);
    WwwLinkDomain("https", domain);
    AgreeingServices(name, Item(link, domain), domain);
  }

  lemma MicrosoftLinkShape(link: string, domain: string)
    requires link == "https://www.microsoft.com" && domain == "microsoft.com"
    ensures link == "https" + "://" + ("www." + domain)
  {
  }

  lemma MicrosoftDomainPlain(domain: string)
    requires domain == "microsoft.com"
    ensures forall i :: 0 <= i < |domain| ==> !IsHostDelimiter(domain[i])
  {
  }

  lemma MicrosoftDisplayMatches(domain: string, name: string)
    requires domain == "microsoft.com" && name == "microsoft"
    ensures Contains(domain, name)
  {
    assert OccursAt(domain, name, 0) by {
      assert domain[0..9] == name;
    }
    ContainsMeans(domain, name);
  }

  lemma DedupPair(d: string)
    ensures Dedup([d, d]) == [d]
  {
    assert [d, d][..1] == [d];
    assert Dedup([d]) == [d] by {
      assert [d][..0] == [];
    }
  }

  /** `https://www.example.com` has the domain `example.com`: a leading "www." of the host is
      dropped. */
  lemma WwwLinkDomain(scheme: string, domain: string)
    requires forall i :: 0 <= i < |scheme| ==> scheme[i] != ':'
    requires forall i :: 0 <= i < |domain| ==> !IsHostDelimiter(domain[i])
    ensures ConvertLinkToDomain(scheme + "://" + ("www." + domain)) == Some(domain)
  {
    var host := "www." + domain;
    forall i | 0 <= i < |host| ensures !IsHostDelimiter(host[i]) {
      if i >= 4 {
        assert host[i] == domain[i - 4];
      }
    }
    HostOfAbsoluteLink(scheme, host);
    LeadingWwwRemoved(domain);
  }

  /** A link `scheme://host` whose scheme has no ':' and whose host has no delimiter has that host. */
  lemma HostOfAbsoluteLink(scheme: string, host: string)
    requires forall i :: 0 <= i < |scheme| ==> scheme[i] != ':'
    requires forall i :: 0 <= i < |host| ==> !IsHostDelimiter(host[i])
    ensures Host(scheme + "://" + host) == Some(host)
  {
    var link := scheme + "://" + host;
    var k := |scheme|;
    assert OccursAt(link, "://", k) by {
      assert link[k..k + 3] == "://";
    }
    forall j | 0 <= j < k ensures !OccursAt(link, "://", j) {
      assert link[j] == scheme[j];
      assert link[j..j + 3][0] == link[j];
    }
    assert IndexOf(link, "://") == Some(k);
    var rest := link[k + 3..];
    assert rest == host;
    HostLengthOfPlain(host);
    assert rest[..HostLength(rest)] == host;
  }

  lemma {:induction false} HostLengthOfPlain(s: string)
    requires forall i :: 0 <= i < |s| ==> !IsHostDelimiter(s[i])
    ensures HostLength(s) == |s|
  {
    if s != [] {
      HostLengthOfPlain(s[1..]);
    }
  }

  /** A failed Google response and a Clearbit reply that is empty or failed leave no candidate. */
  lemma NothingFetched(name: string, clearbit: ClearbitReply)
    requires clearbit.body.Some? && (clearbit.body.value == [] || !clearbit.success)
    ensures AllSimilarDomains(name, None, clearbit) == Success([])
  {
  }

  /** `create_company_profiles`: raises on an empty candidate list; otherwise builds one `Company`
      per domain, in order. `Company.new(domain, attributes)` passes two arguments to a
      constructor whose first two parameters have defaults, so the domain becomes the company's
      `name`, its `fetched_domain` is "", and the (user's) attributes become its tags. */
  method CreateCompanyProfiles(domains: seq<string>, attributes: Option<seq<string>>, searchTerm: string)
    returns (r: Result<seq<Companies.Company>, Error>)
    ensures domains == [] <==> r.Failure?
    ensures r.Failure? ==> r.error == RuntimeError(NoDomainsMessage)
    ensures r.Success? ==> |r.value| == |domains|
    ensures r.Success? ==> forall k :: 0 <= k < |domains| ==>
      && fresh(r.value[k])
      && r.value[k].name == domains[k]
      && r.value[k].fetchedDomain == ""
      && r.value[k].attributes == Companies.ParseAttributes(attributes)
      && r.value[k].jaccardIndex == Companies.Jaccard.Exact(0.0)
      && r.value[k].levensteinDistance == None
      && r.value[k].levensteinPercent == Some(0.0)
  {
    if domains == [] {
      return Failure(RuntimeError(NoDomainsMessage));
    }
    var companyObjects: seq<Companies.Company> := [];
    var i := 0;
    while i < |domains|
      invariant 0 <= i <= |domains| && |companyObjects| == i
      invariant forall k :: 0 <= k < i ==>
        && fresh(companyObjects[k])
        && companyObjects[k].name == domains[k]
        && companyObjects[k].fetchedDomain == ""
        && companyObjects[k].attributes == Companies.ParseAttributes(attributes)
        && companyObjects[k].jaccardIndex == Companies.Jaccard.Exact(0.0)
        && companyObjects[k].levensteinDistance == None
        && companyObjects[k].levensteinPercent == Some(0.0)
    {
      var company := new Companies.Company(domains[i], "", attributes);
      // `company.calculate_similarity(search_term)` names no method of Company; `rescue nil` swallows the error
      companyObjects := companyObjects + [company];
      i := i + 1;
    }
    r := Success(companyObjects);
  }

  /** `get_domains_from_name`: merge the candidates, then build the companies. */
  method GetDomainsFromName(request: Request, attributes: Option<seq<string>>,
                            google: Option<seq<Item>>, clearbit: ClearbitReply)
    returns (r: Result<seq<Companies.Company>, Error>)
    ensures AllSimilarDomains(request.name, google, clearbit).Failure? ==>
      r == Failure(AllSimilarDomains(request.name, google, clearbit).error)
    ensures AllSimilarDomains(request.name, google, clearbit) == Success([]) ==>
      r == Failure(RuntimeError(NoDomainsMessage))
    ensures AllSimilarDomains(request.name, google, clearbit).Success? ==>
      var domains := AllSimilarDomains(request.name, google, clearbit).value;
      domains != [] ==> (
        && r.Success? && |r.value| == |domains|
        && forall k :: 0 <= k < |domains| ==> (
          && fresh(r.value[k]) && r.value[k].name == domains[k]
          && r.value[k].attributes == Companies.ParseAttributes(attributes)))
  {
    match AllSimilarDomains(request.name, google, clearbit) {
      case Failure(e) =>
        r := Failure(e);
      case Success(domains) =>
        r := CreateCompanyProfiles(domains, attributes, request.name);
    }
  }

  /** `fetch_domain`: lowercase the categories, then `get_domains_from_name`. */
  method FetchDomain(request: Request, attributes: Option<seq<string>>,
                     google: Option<seq<Item>>, clearbit: ClearbitReply)
    returns (r: Result<seq<Companies.Company>, Error>)
    ensures AllSimilarDomains(request.name, google, clearbit).Failure? ==>
      r == Failure(AllSimilarDomains(request.name, google, clearbit).error)
    ensures AllSimilarDomains(request.name, google, clearbit) == Success([]) ==>
      r == Failure(RuntimeError(NoDomainsMessage))
    ensures AllSimilarDomains(request.name, google, clearbit).Success? ==>
      var domains := AllSimilarDomains(request.name, google, clearbit).value;
      domains != [] ==> (
        && r.Success? && |r.value| == |domains|
        && forall k :: 0 <= k < |domains| ==> (
          && fresh(r.value[k]) && r.value[k].name == domains[k]
          && r.value[k].attributes == Companies.ParseAttributes(NormalizeCategories(attributes))))
  {
    r := GetDomainsFromName(request, NormalizeCategories(attributes), google, clearbit);
  }
}
