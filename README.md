# GetDomain: candidate scoring and merging, in Dafny

GetDomain finds a company's web domain from its name. It asks two discovery services for
candidates: a Google custom search and Clearbit's autocomplete. It then merges the answers and
builds one `Company` per candidate domain. Each company can be scored in two ways:

- a Jaccard index between its tags and the user's categories;
- a Levenshtein distance between the search term and the root of its domain.

This project models that core in Dafny and proves properties of the model:

- `levenstein.dfy`, module `Levenstein`: `Levenstein::Distance.generate`. This is the
  dynamic-programming table filled row by row, as an imperative method over an `array2`. It is
  proved equal to a recursive edit-distance definition, and that definition's properties are
  proved: bounds, symmetry, and zero exactly for equal strings.
- `jaccard.dfy`, module `Jaccard`: `Jaccard::Index.generate`, over Ruby's duplicate-removing
  `&` and `|`. Two empty inputs give NaN, as `0.fdiv(0)` does in Ruby.
- `company.dfy`, module `Companies`: the `Company` class.
  - `name`, `fetched_domain` and the parsed tags never change, so they are `const` fields.
  - The Jaccard index and the two Levenshtein fields are mutable.
  - Tag parsing (`parse_attributes`) and the domain root (`downcase.split(".")[0]`) are functions.
- `search_helper.dfy`, module `SearchHelper`: `SearchHelper::Request` and
  `SearchHelper::ProcessSimilarity` in `lib/search_helper.rb`. This covers the query
  normalisation, the Google filter and link-to-domain conversion, and the merge of the two
  services' answers. It also covers the "no domains" error and the construction of one company
  per domain.
- `legacy_search_helper.dfy`, module `LegacySearchHelper`: the older top-level
  `search_helper.rb`, which picks a single link.
- Support modules:
  - `wrappers.dfy`: `Option` and `Result`.
  - `sequences.dfy`: order-preserving `uniq`, `select`, `flatten`.
  - `text.dfy`: Ruby's `chomp`, `gsub(/\s+/, '')`, `split(" ")`, `downcase`, `include?` and
    `sub`.

HTTP responses are parameters:

- `None` is a response that is not a success.
- A Google response is its list of `(link, displayLink)` items.
- A Clearbit response in the newer helper is a `ClearbitReply`: whether the request succeeded,
  and its body as a list of domains, or `None` when the body is not JSON.
- A Clearbit response in the legacy helper is its list of domains.

Ruby's behaviour is written out wherever the code relies on it:

- `a, b = n` with a bare integer leaves `b` nil.
- `"".split(".")[0]` is nil.
- Ruby's `split(" ")` splits on runs of whitespace and drops empty pieces.
- `sub` replaces only the first occurrence.

Where the code and its tests or stated intent disagree, the model follows the code:

- `Levenstein::Distance.generate` returns a bare integer when either string is empty. The test at
  `spec/algorithms/levenstein_distance_spec.rb:22` expects the pair `[4, 0.0]`.
  `Levenstein.Generate` returns `Bare(4)` there.
- `create_company_profiles` calls `Company.new(domain, attributes)`. The constructor's first two
  parameters have defaults, so Ruby binds the domain to `name` and leaves `fetched_domain` as
  `""`. `SearchHelper.CreateCompanyProfiles` states this.
  - A later `calculate_levenstein_distance` on such a company would read the root of `""`,
    which is nil, and raise. `Companies.Company.CalculateLevensteinDistance` models that raise.
- `company.calculate_similarity(search_term)` names no method of `Company`. The `NoMethodError`
  is swallowed by `rescue nil`, so the call changes nothing.
- `fetch_domains_in_parallel` maps over `1..2`, so both services are queried twice and the
  answers are concatenated twice. `SearchHelper.AllSimilarDomains` proves that `uniq` removes
  the repetition.
- The legacy `format_google_response` first tests the first result against the lowercased name.
  When that misses, `find` tests every result, the first included, against the name as typed.
  `LegacySearchHelper.CaseOfNameMatters` exhibits the consequence: "microsoft" finds a link that
  "Microsoft" does not.
- `fetch_domain_names_from_clearbit` parses the body with `JSON(response.body)` before it looks
  at `response.success?`. A failed Clearbit request whose body is not JSON therefore raises
  `JSON::ParserError` instead of contributing nothing, and the whole merge fails.
  `SearchHelper.UnparsableClearbitRaises` states this.

## Model

| member | source | states |
|---|---|---|
| Levenstein.Generate | lib/algorithms/levenstein_distance.rb:3-31 | an empty second string gives the bare length of the first; otherwise an empty first string gives the bare length of the second; two non-empty strings give the pair (edit distance, edit distance / length of the second string) |
| Levenstein.FillRow | lib/algorithms/levenstein_distance.rb:16-25 | filling one row keeps every earlier cell and makes every cell of the row the edit distance of the two prefixes |
| Levenstein.CellRule | lib/algorithms/levenstein_distance.rb:17-23 | the distance of two prefixes is the diagonal one when their last characters match, else one more than the least of the deletion, insertion and substitution neighbours |
| Levenstein.MatchTakesDiagonal | lib/algorithms/levenstein_distance.rb:17-18 | when the last characters match, the distance is that of the two strings without them, as the "no operation" branch takes |
| Levenstein.Min3 | lib/algorithms/levenstein_distance.rb:20-23 | `[..].min` of three values is one of them and no larger than any |
| Levenstein.EarlyReturnIsDistance | lib/algorithms/levenstein_distance.rb:7-8 | the early returns' lengths are the edit distance against the empty string |
| Levenstein.Bounds | lib/algorithms/levenstein_distance.rb:28 | the distance is at least the difference of the lengths and at most the longer length |
| Levenstein.ZeroIffEqual | lib/algorithms/levenstein_distance.rb:28 | the distance is 0 exactly when the strings are equal, so "guru" against "guru" gives [0, 0.0] |
| Levenstein.Symmetric | lib/algorithms/levenstein_distance.rb:15-26 | the distance does not depend on which string is the row and which the column |
| Levenstein.DropSourceBound | lib/algorithms/levenstein_distance.rb:20 | deleting the last source character costs at most one edit |
| Levenstein.ExtendTargetBound | lib/algorithms/levenstein_distance.rb:21 | appending a character to the target lowers the distance by at most one |
| Levenstein.ExtendSourceBound | lib/algorithms/levenstein_distance.rb:20 | appending a character to the source lowers the distance by at most one |
| Levenstein.InfixBound | lib/algorithms/levenstein_distance.rb:28 | a string that contains the target is at most its extra characters away from it |
| Levenstein.PrefixBound | lib/algorithms/levenstein_distance.rb:28 | a string that ends with the target is at most its prefix's length away from it |
| Levenstein.GuruTechExample | spec/algorithms/levenstein_distance_spec.rb:10 | "guru-tech" against "guru" is distance 5 with ratio 1.25 |
| Levenstein.PirateTestingExample | spec/company/company_spec.rb:31 | "piratetesting" against "test" is distance 9 |
| Jaccard.Intersection | lib/algorithms/jaccard_index.rb:4 | `a & b` has no repeats and holds exactly the values common to both |
| Jaccard.Union | lib/algorithms/jaccard_index.rb:5 | `a \| b` has no repeats and holds exactly the values of either |
| Jaccard.Index | lib/algorithms/jaccard_index.rb:3-8 | NaN exactly when both inputs are empty; otherwise a value in [0, 1] |
| Jaccard.SizesAreCardinalities | lib/algorithms/jaccard_index.rb:4-5 | the two sizes are the cardinalities of the set intersection and set union |
| Jaccard.IndexOfSets | lib/algorithms/jaccard_index.rb:4-7 | the index is the size of the set intersection over the size of the set union |
| Jaccard.RepeatsIrrelevant | lib/algorithms/jaccard_index.rb:4-5 | inputs with the same values give the same index, whatever their repeats and order |
| Jaccard.IndexSymmetric | lib/algorithms/jaccard_index.rb:4-7 | swapping the inputs does not change the index |
| Jaccard.FractionBound | lib/algorithms/jaccard_index.rb:7 | a part over a non-empty whole lies in [0, 1] |
| Jaccard.SubsetCard | lib/algorithms/jaccard_index.rb:7 | the intersection is no larger than the union |
| Jaccard.IndexFromCards | lib/algorithms/jaccard_index.rb:7 | given the two cardinalities with a non-empty union, the index is their quotient |
| Jaccard.IndexOfEqual | spec/algorithms/jaccard_index_spec.rb:20 | a non-empty input against itself gives 1.0 |
| Jaccard.IndexWithEmpty | spec/algorithms/jaccard_index_spec.rb:16 | a non-empty input against an empty one gives 0.0 |
| Jaccard.ExampleCards | spec/algorithms/jaccard_index_spec.rb:10 | the test lists share 2 values out of 8 |
| Jaccard.QuarterExample | spec/algorithms/jaccard_index_spec.rb:10 | `[1,2,3,1,1,45,23,22,12,44]` against `[2,2,2,45]` gives 0.25 |
| Companies.SplitAll | lib/company/company.rb:38 | every piece of the split attributes is a non-empty run of non-whitespace; where the splits fall is stated by SplitAllIsWordsOfEach |
| Companies.ParseAttributes | lib/company/company.rb:36-40 | nil or no attributes give no tags; every tag is non-empty, whitespace-free and lower case |
| Companies.ParseAttributesJoin | lib/company/company.rb:36-40 | joined, the tags are the joined attributes without whitespace and lowercased: no other character is lost, added or moved |
| Companies.SplitAllJoin | lib/company/company.rb:38 | joined, the pieces are the joined attributes without whitespace |
| Companies.SplitAllIsWordsOfEach | lib/company/company.rb:38 | the split attributes are the `split(" ")` pieces of each attribute, concatenated in order |
| Companies.TagsSplitAtWhitespace | lib/company/company.rb:36-40 | an attribute with a whitespace character in it gives the tags of the text before it followed by the tags of the text after it |
| Companies.OneAttribute | lib/company/company.rb:36-40 | a single attribute gives its `split(" ")` pieces, each lowercased |
| Companies.CloudComputingExample | lib/company/company.rb:36-40 | the attribute "Cloud Computing" gives the tags "cloud" and "computing" |
| Companies.ParseCleanAttributes | lib/company/company.rb:36-40 | attributes that are already single lower-case words come back unchanged |
| Companies.DomainRoot | lib/company/company.rb:30 | nil exactly when the domain is empty or only dots; otherwise the lowercased text before the first dot |
| Companies.TestDomainRoot | lib/company/company.rb:30 | the root of "test.com" is "test" |
| Companies.Company.constructor | lib/company/company.rb:9-15 | name and fetched domain as given, tags parsed, Jaccard index 0.0, percent 0.0, distance nil |
| Companies.Company.AssignCategoryJaccardIndex | lib/company/company.rb:19-21 | the Jaccard index becomes that of the tags against the categories; nothing else changes |
| Companies.Company.CalculateLevensteinDistance | lib/company/company.rb:29-32 | raises exactly when the domain has no root, and then changes nothing; otherwise the distance is the edit distance from the term to the root, and the percent is that distance over the root's length when both are non-empty and nil otherwise; the Jaccard index is untouched |
| Companies.NoAttributesExample | spec/company/company_spec.rb:5-19 | a company built with nil or with no attributes has no tags |
| Companies.ExampleTagsParse | spec/company/company_spec.rb:24 | `["test", "spec", "example"]` parse to themselves |
| Companies.ScoresExampleIndex | spec/company/company_spec.rb:30 | those tags against `["test", "internet", "random"]` give 0.2 |
| Companies.AssignScoresExample | spec/company/company_spec.rb:21-32 | scoring "test.com" with those tags and categories and the term "piratetesting" gives Jaccard 0.2 and distance 9 |
| Text.LowerChar | lib/search_helper.rb:13 | an upper-case ASCII letter becomes the lower-case letter 32 code points above it; every other character is unchanged |
| Text.Lower | lib/search_helper.rb:13 | `downcase` keeps the length, lowercases each character in place, leaves no upper case and keeps a whitespace-free string whitespace-free |
| Text.LowerConcat | lib/company/company.rb:39 | lowercasing distributes over concatenation |
| Text.LowerOfLowerCase | lib/search_helper.rb:21 | lowercasing a lower-case string changes nothing |
| Text.RemoveWhitespace | lib/search_helper.rb:13 | `gsub(/\s+/, '')` leaves no whitespace and keeps every other character |
| Text.RemoveWhitespaceConcat | lib/search_helper.rb:13 | removing whitespace distributes over concatenation |
| Text.RemoveWhitespaceOfClean | lib/search_helper.rb:13 | a whitespace-free string is unchanged |
| Text.Chomp | lib/search_helper.rb:13 | `chomp` removes a final "\r\n" as one break; otherwise a final "\n" or "\r"; a string with no final break is unchanged |
| Text.ChompThenRemoveWhitespace | lib/search_helper.rb:13 | chomping first makes no difference once all whitespace is removed |
| Text.WordLength | lib/company/company.rb:38 | the first word runs to the first whitespace |
| Text.Words | lib/company/company.rb:38 | `split(" ")` gives non-empty, whitespace-free pieces |
| Text.WordsJoin | lib/company/company.rb:38 | joined, the pieces are the string without its whitespace |
| Text.SingleWord | lib/company/company.rb:38 | a non-empty whitespace-free string splits into itself |
| Text.WordsAtWhitespace | lib/company/company.rb:38 | `split(" ")` splits at every whitespace character: the pieces of `a + c + b` are those of `a` followed by those of `b` |
| Text.WordsOfBlank | lib/company/company.rb:38 | a string of whitespace only gives no pieces |
| Text.WordsStep | lib/company/company.rb:38 | a string starting with a non-whitespace character gives its first word, then the pieces of the rest |
| Text.WordLengthIs | lib/company/company.rb:38 | the first word ends at the first whitespace character, or at the end of the string |
| Text.IndexFrom | lib/search_helper.rb:69 | the first occurrence at or after a position, and none before it |
| Text.IndexOf | lib/search_helper.rb:69 | the first occurrence, and none before it |
| Text.ContainsMeans | lib/search_helper.rb:69 | `include?` holds exactly when the pattern occurs somewhere |
| Text.SubFirst | lib/search_helper.rb:98 | without the pattern the string is unchanged; with it, exactly the first occurrence is replaced |
| Sequences.Filter | lib/search_helper.rb:68-70 | `select` keeps exactly the elements that pass, and no more elements than it was given |
| Sequences.FilterConcat | lib/search_helper.rb:68-70 | selecting from a concatenation selects from each part, in order |
| Sequences.Dedup | lib/search_helper.rb:32 | `uniq` has no repeats and the same values as its input |
| Sequences.DedupFirstSeenOrder | lib/search_helper.rb:32 | `uniq` keeps values in the order of their first occurrence |
| Sequences.NoDupsCard | lib/algorithms/jaccard_index.rb:4-5 | a list without repeats is as long as its set of values |
| Sequences.DedupCard | lib/algorithms/jaccard_index.rb:4-5 | `uniq` is as long as its input's set of values |
| Sequences.DedupAbsorbs | lib/search_helper.rb:31-32 | appending values already present does not change `uniq` |
| Sequences.DedupOfNoDups | lib/search_helper.rb:32 | `uniq` of a list without repeats is that list |
| Sequences.Flatten | lib/search_helper.rb:31 | `flatten` holds every element of every inner list and nothing else, and one list flattens to itself; with FlattenConcat this fixes the result as the inner lists joined in order, once each |
| Sequences.FlattenConcat | lib/search_helper.rb:31 | flattening a concatenation of lists flattens each part, in order |
| SearchHelper.NewRequest | lib/search_helper.rb:12-14 | the name is the raw name without whitespace and lowercased |
| SearchHelper.NormalizeCategories | lib/search_helper.rb:21 | nil stays nil; each category is lowercased, one for one |
| SearchHelper.HostLength | lib/search_helper.rb:98 | the host runs to the first '/', '?', '#' or ':' |
| SearchHelper.Host | lib/search_helper.rb:98 | a link has a host exactly when it contains "://"; the host has no delimiter |
| SearchHelper.ConvertLinkToDomain | lib/search_helper.rb:97-99 | nil exactly when the link has no host; the host unchanged when it has no "www.", else four characters shorter |
| SearchHelper.LeadingWwwRemoved | lib/search_helper.rb:95-98 | a host starting with "www." loses exactly that prefix |
| SearchHelper.InnerWwwRemoved | lib/search_helper.rb:98 | a "www." inside the host is removed too: "blog.www.example.com" becomes "blog.example.com" |
| SearchHelper.WwwLinkDomain | lib/search_helper.rb:95-98 | `scheme://www.domain` has the domain `domain` |
| SearchHelper.HostOfAbsoluteLink | lib/search_helper.rb:98 | `scheme://host` has the host `host` |
| SearchHelper.HostLengthOfPlain | lib/search_helper.rb:98 | a host without delimiters is read whole |
| SearchHelper.Matching | lib/search_helper.rb:68-70 | kept are exactly the items whose display link contains the name |
| SearchHelper.LinksToDomains | lib/search_helper.rb:71 | succeeds exactly when every link has a host, with one domain per item in order; otherwise fails on a link without a host |
| SearchHelper.GoogleDomains | lib/search_helper.rb:63-75 | a failed response gives no domains; a successful one gives the domains of the matching items |
| SearchHelper.ClearbitDomains | lib/search_helper.rb:83-91 | a body that is not JSON raises, whatever the status; otherwise a failed response gives no domains and a successful one its domains |
| SearchHelper.FetchDomainsInParallel | lib/search_helper.rb:37-43 | two identical runs of Google's domains followed by Clearbit's; fails exactly when the Google or the Clearbit step raises, with Google's error when it raises and otherwise Clearbit's |
| SearchHelper.AllSimilarDomains | lib/search_helper.rb:30-32 | fails exactly when either service's step raises, with Google's error first; otherwise the candidates are `uniq` of Google's then Clearbit's domains: no repeats, every value of either service, first-seen order |
| SearchHelper.UnparsableClearbitRaises | lib/search_helper.rb:83-86 | a Clearbit body that is not JSON makes the merge fail, whether the request succeeded or not |
| SearchHelper.FailedClearbitAddsNothing | lib/search_helper.rb:84-90 | a failed Clearbit request with a JSON body leaves only Google's domains |
| SearchHelper.SharedDomainKeptOnce | lib/search_helper.rb:41 | a domain both services return appears exactly once |
| SearchHelper.AgreeingServices | lib/search_helper.rb:30-43 | one matching Google result whose domain is Clearbit's one domain leaves that single candidate |
| SearchHelper.DedupPair | lib/search_helper.rb:32 | a repeated domain is kept once |
| SearchHelper.MicrosoftExample | spec/search_helper_spec.rb:23-31 | Google's "https://www.microsoft.com" and Clearbit's "microsoft.com" leave the one candidate "microsoft.com" |
| SearchHelper.NothingFetched | spec/search_helper_spec.rb:123-136 | a failed Google response and an empty or failed Clearbit one with a JSON body leave no candidate |
| SearchHelper.CreateCompanyProfiles | lib/search_helper.rb:109-118 | no domains raise "No domains found from APIs, check rate limits"; otherwise one new company per domain, in order, named by its domain, with an empty fetched domain, the parsed attributes and the initial scores |
| SearchHelper.GetDomainsFromName | lib/search_helper.rb:30-35 | a failed merge fails, an empty merge raises the "no domains" error, and otherwise there is one company per candidate |
| SearchHelper.FetchDomain | lib/search_helper.rb:20-25 | as above, with the categories lowercased before they become tags |
| LegacySearchHelper.LegacyName | search_helper.rb:6 | the name loses its whitespace but keeps its case |
| LegacySearchHelper.FirstMatch | search_helper.rb:18-20 | the first item whose display link contains the name as typed, or nil when there is none |
| LegacySearchHelper.FormatGoogleResponse | search_helper.rb:15-22 | no items raise; a first item matching the lowercased name gives its link; otherwise the answer is the link of the first item the newer search keeps for the name as typed, and a raise when it keeps none |
| LegacySearchHelper.FallbackToClearbitApi | search_helper.rb:24-28 | the first suggested domain, or "Could not find domain." for a failed or empty response |
| LegacySearchHelper.MakeRequestAndFetchDomain | search_helper.rb:5-13 | a failed Google request falls back to Clearbit; a successful one is read with the cleaned name |
| LegacySearchHelper.FirstMatchIsFirstKept | search_helper.rb:18-20 | the legacy `find` picks the first of the items the newer `select` keeps |
| LegacySearchHelper.LowerCaseNameTakesFirstKept | search_helper.rb:17-21 | for a lower-case name the answer is the link of the first kept item, and a raise when none is kept |
| LegacySearchHelper.GoogleFailureNeverRaises | search_helper.rb:11 | with a failed Google request the answer is Clearbit's domain or the not-found message, never an error |
| LegacySearchHelper.MissThenSecond | search_helper.rb:17-21 | when the first of two items misses the lowercased name, the case-sensitive search over both decides |
| LegacySearchHelper.CaseSplitsResults | search_helper.rb:17-21 | when only the second result shows the lowercased name and neither shows the name as typed, the lowercased name finds the second link and the typed name raises |
| LegacySearchHelper.AbsentFirstChar | search_helper.rb:17 | a pattern whose first character is absent does not occur |
| LegacySearchHelper.CaseOfNameMatters | search_helper.rb:17-21 | with results "www.bbc.co.uk" then "microsoft.com", "microsoft" finds the Microsoft link while "Microsoft" raises |

## Left out

- HTTP requests, API keys, query parameters and status codes are not modelled. Each response
  is a parameter. A Google response is `None` for a failure, else its items. A Clearbit response
  is a `ClearbitReply` in the newer helper and `None` or its domains in the legacy one.
  - An item without `"link"` is silently skipped by `select` and `find`, because the block
    returns nil for it. The model's items always have a link, so this case does not arise.
  - A Google body without an `"items"` key, or an item without `"displayLink"`, raises in Ruby.
    The model cannot express these inputs.
  - A Google body that is not JSON raises in Ruby. The model takes every successful Google
    body as parsed.
  - The Clearbit body's `map { |item| item["domain"] }` is taken as already done.
- LegacySearchHelper.FallbackToClearbitApi: a successful Clearbit response whose body cannot be
  parsed is not representable in the legacy model. The legacy helper relies on HTTParty's own
  parsing, which is not modelled.
- SearchHelper.Host: approximates `URI.parse(link).host` by the text after the first "://" up to
  the next '/', '?', '#' or ':'. User information, IPv6 literals, percent-encoding and
  `URI::InvalidURIError` are not modelled, and the host's case is kept.
- `Parallel.map` and `Parallel.each` run sequentially here. Process isolation, threads,
  progress bars and the order in which threads append companies are not modelled.
  - `SearchHelper.CreateCompanyProfiles` returns the companies in domain order. Under threads
    that order is not guaranteed.
  - The two runs of `fetch_domains_in_parallel` are assumed to see the same responses.
- The two-tier ranking is not modelled: Jaccard index descending, then distance ascending, with
  Google's order breaking ties. No code in the modelled files implements it.
- The Thor command line, batch file reading and console output are not modelled.
  `get_domain.rb` is not part of this model.
- Text.Lower: models `downcase` on ASCII letters only. Ruby's full Unicode case mapping is not
  modelled.
- Levenstein.Generate: the ratio is an exact `real`, not a binary floating-point value, and how
  Ruby prints it is not modelled.
- Jaccard.Index: the quotient is an exact `real`, not a binary floating-point value, and how
  Ruby prints it is not modelled. NaN is one symbolic value. IEEE comparisons with it are not
  modelled.
- SearchHelper.GetDomainsFromName: states each company's name and tags only. The other fields
  follow from `SearchHelper.CreateCompanyProfiles`.
- SearchHelper.FetchDomain: states each company's name and tags only, like
  `SearchHelper.GetDomainsFromName`.
- `company.calculate_similarity(search_term) rescue nil` is modelled as doing nothing, because
  `Company` has no such method and the error is swallowed.
