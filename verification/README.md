# Company data collection, modelled in Dafny

This project models the record-building core of the social media agent's data collection
(`src/agents/Data_collection_agent.py`).

`CompanyDataCollector` fills one in-memory company record, `company_data`, step by step:

1. Search hits from Google Custom Search are recorded. The official website is taken from the last hit whose display link matches the company name.
2. Up to 20 news articles are appended from each NewsAPI answer.
3. The official website's main page is scraped. The first acceptable about page and the first acceptable products page are scraped too, each through a fallback list of URLs.
4. The 50 most frequent industry keywords are extracted from the gathered texts.
5. Competitor mentions are filtered out of a second search.

`SocialMediaExtractor.collect_all_social_data` reports which platform extractors ran, and takes a Mastodon handle apart. All three pipelines derive their output file names from the company name.

The model, file by file:

- `collector.dfy`: the class `CompanyDataCollector` with the fields of `company_data`. Each step is a method that changes those fields in place, and is proved against specification functions. It also holds the loops of the steps: the page fallback, the text gathering and the competitor filter.
- `keywords.dfy`: the specification of keyword extraction, and the counting loop. Several things are proved about the result:
  - at most 50 keywords, all distinct, each a counted word of the texts;
  - ordered by non-increasing frequency;
  - complete: a word is left out only when 50 keywords at least as frequent were kept;
  - ties listed in first-occurrence order.
- `ranking.dfy`: `sorted(..., key=count, reverse=True)` as a stable sort. It is proved to be a permutation, ordered, and stable.
- `ordered_map.dfy`: Python's insertion-ordered `dict`. The order of `word_freq` breaks frequency ties. The order of `website_content` fixes the order of the gathered texts.
- `records.dfy`: the entries stored in the record and the per-item rules:
  - the official-website match;
  - the competitor test;
  - the candidate URLs and the page quality bar;
  - which news fields contribute text.
- `text.dfy`: the `str` operations used: `lower`, `in`, `split()`, `split('@')`, `join`, `rstrip` and `replace`.
- `social.dfy`: the social status dictionary and the Mastodon handle split.
- `paths.dfy`: the output file names.

The outside world becomes inputs:

- The answer of each search API call is an `ApiResponse`. It either raised, or answered without usable items (a non-200 status, no `items`, or a NewsAPI status other than "ok"), or delivered a list of items.
- Downloading and parsing a page with `newspaper` is a function from URL to `FetchResult`: a failure, or a page with title, text and top image.
- The Twitter extractor is a function from handle to its boolean result.
- The construction timestamp is a parameter.
- An exception that a step lets out is the outcome `Raised`.

## Model

| member | source | states |
|---|---|---|
| `Text.LowerChar` | src/agents/Data_collection_agent.py:215 | lower-casing maps each ASCII capital to its small letter and leaves every other character alone |
| `Text.Lower` | src/agents/Data_collection_agent.py:215 | lower-casing keeps the length and leaves no ASCII capital |
| `Text.LowerAppend` | src/agents/Data_collection_agent.py:215 | lower-casing a concatenation is the concatenation of the lower-cased parts |
| `Text.ContainsIsOccurs` | src/agents/Data_collection_agent.py:63 | the left-to-right scan used for Python's `in` is true exactly when the needle occurs as a contiguous piece of the haystack |
| `Text.Contains` | src/agents/Data_collection_agent.py:63 | the `in` test holds when the needle starts the haystack, and never for a needle longer than the haystack |
| `Text.EmptyIsEverywhere` | src/agents/Data_collection_agent.py:63 | the empty string is in every string |
| `Text.JoinWith` | src/agents/Data_collection_agent.py:215 | `" ".join(parts)` begins with the first part |
| `Text.SplitOn` | src/agents/Data_collection_agent.py:493 | `split('@')` gives one more part than there are separators, and no part contains the separator |
| `Text.JoinSplitOn` | src/agents/Data_collection_agent.py:493 | joining the parts of `split(c)` with `c` gives the string back |
| `Text.SplitOnJoin` | src/agents/Data_collection_agent.py:493 | splitting a join of separator-free parts gives the parts back |
| `Text.Tokens` | src/agents/Data_collection_agent.py:217 | every token of `split()` is non-empty and free of whitespace |
| `Text.SplitWhitespace` | src/agents/Data_collection_agent.py:217 | every word of `split()` is non-empty and free of whitespace |
| `Text.SplitWhitespaceAcross` | src/agents/Data_collection_agent.py:215-217 | text joined by a whitespace character splits into the tokens of each side, in order |
| `Text.SplitWhitespaceJoin` | src/agents/Data_collection_agent.py:215-217 | `" ".join(words).split()` gives the words back when each is a token |
| `Text.RStrip` | src/agents/Data_collection_agent.py:143 | `rstrip('/')` returns a prefix that does not end in '/', and everything it cut off is '/' |
| `Text.ReplaceChar` | src/agents/Data_collection_agent.py:292 | `replace(a, b)` on one character keeps the length and, for `a != b`, leaves no `a` |
| `OrderedMaps.OrderedMap.Get` | src/agents/Data_collection_agent.py:223 | `get(k, 0)` is the stored value for a present key and the default otherwise |
| `OrderedMaps.OrderedMap.Put` | src/agents/Data_collection_agent.py:223 | assignment stores the value. Other keys keep their values. An existing key keeps its place and a new key goes last |
| `OrderedMaps.Empty` | src/agents/Data_collection_agent.py:218 | `{}` has no keys |
| `Ranking.SortByCount` | src/agents/Data_collection_agent.py:226 | the sorted pairs are a permutation of the input pairs |
| `Ranking.SortByCountNonIncreasing` | src/agents/Data_collection_agent.py:226 | the sorted pairs have non-increasing counts |
| `Ranking.SortByCountStable` | src/agents/Data_collection_agent.py:226 | for every count, the pairs with that count keep their input order |
| `Ranking.SortByCountDistinctKeys` | src/agents/Data_collection_agent.py:226 | sorting pairs with distinct keys keeps the keys distinct |
| `Ranking.WithCountOfPrefix` | src/agents/Data_collection_agent.py:226 | cutting the sorted list short keeps, for every count, a prefix of the pairs with that count |
| `Keywords.TextWords` | src/agents/Data_collection_agent.py:215-217 | the words of the joined, lower-cased texts are non-empty and free of whitespace |
| `Keywords.OnlyWithIsStopped` | src/agents/Data_collection_agent.py:220-222 | a word is counted exactly when it is longer than three characters and is not "with", the only stopword the length test does not already drop |
| `Keywords.TextWordsAppend` | src/agents/Data_collection_agent.py:214-217 | the words of gathered texts are the words of each text in turn, because joining with a space never glues two words together |
| `Keywords.EmptyTextAddsNoWords` | src/agents/Data_collection_agent.py:199-217 | an empty text contributes no word |
| `Keywords.WordCountsIgnoreTextOrder` | src/agents/Data_collection_agent.py:199-223 | the count of a word does not depend on the order in which two groups of texts were gathered |
| `Keywords.FirstOccurrencesMembers` | src/agents/Data_collection_agent.py:221-223 | the keys of `word_freq` are exactly the counted words that occur |
| `Keywords.FirstOccurrencesDistinct` | src/agents/Data_collection_agent.py:218-223 | no key of `word_freq` appears twice |
| `Keywords.FirstOccurrencesInOrder` | src/agents/Data_collection_agent.py:218-223 | the keys of `word_freq` are in the order of their first occurrence in the text |
| `Keywords.Frequencies` | src/agents/Data_collection_agent.py:218-223 | the frequency dictionary is a well-formed ordered dictionary |
| `Keywords.FrequenciesStep` | src/agents/Data_collection_agent.py:221-223 | one more word updates the dictionary as `word_freq[word] = word_freq.get(word, 0) + 1` when it is counted, and leaves it alone otherwise |
| `Keywords.CountFrequencies` | src/agents/Data_collection_agent.py:218-223 | the counting loop builds the dictionary that maps each counted word, in first-occurrence order, to its number of occurrences |
| `Keywords.RankedFacts` | src/agents/Data_collection_agent.py:226 | the sorted items have non-increasing counts and distinct words. Each pair is a counted word with its number of occurrences, and every counted word is there |
| `Keywords.TopKeywords` | src/agents/Data_collection_agent.py:226-227 | at most 50 keywords are kept |
| `Keywords.TopKeywordsWellFormed` | src/agents/Data_collection_agent.py:217-227 | at most 50 keywords, none twice. Each is a counted (non-stopword, longer than three) word of the texts |
| `Keywords.TopKeywordsByFrequency` | src/agents/Data_collection_agent.py:226-227 | keywords come in non-increasing order of frequency |
| `Keywords.TopKeywordsComplete` | src/agents/Data_collection_agent.py:226-227 | a counted word is missing only when 50 keywords were kept, each at least as frequent as it |
| `Keywords.KeysOfWithCount` | src/agents/Data_collection_agent.py:227 | taking the words of the pairs with a given count is the same as taking the words with that count |
| `Keywords.TopKeywordsTies` | src/agents/Data_collection_agent.py:218-227 | for every frequency, the keywords with that frequency are a prefix of the counted words with that frequency in first-occurrence order |
| `Records.Stored` | src/agents/Data_collection_agent.py:108-109 | `get(key, '')` on a content or description field is None exactly for a JSON null, and truthy exactly for a non-empty string |
| `Records.HitsOf` | src/agents/Data_collection_agent.py:67-71 | one search hit per delivered item |
| `Records.IsOfficialSiteMeaning` | src/agents/Data_collection_agent.py:63 | the official-website test holds exactly when the lower-cased display link occurs in the lower-cased name, or the name in the display link |
| `Records.MissingDisplayLinkMatches` | src/agents/Data_collection_agent.py:63 | an item without `displayLink` matches every company name |
| `Records.NewsItemsOf` | src/agents/Data_collection_agent.py:102-110 | one news entry per kept article |
| `Records.CompetitorsOf` | src/agents/Data_collection_agent.py:256-269 | the filter keeps at most one entry per item |
| `Records.CompetitorsOfComplete` | src/agents/Data_collection_agent.py:257-269 | every item whose snippet or title mentions "competitors" gives an entry, so together with `CompetitorsOfSources` and `CompetitorsOfAppend` the entries are exactly the order-preserving filter of the items |
| `Records.CompetitorsFound` | src/agents/Data_collection_agent.py:251-271 | an unusable answer stores no competitor, and a delivered one at most one per item |
| `Records.CompetitorsOfAppend` | src/agents/Data_collection_agent.py:256-269 | the competitor filter works item by item: the entries of a list of items are the entries of its parts, in order |
| `Records.CompetitorsOfSources` | src/agents/Data_collection_agent.py:256-269 | every competitor entry comes from an item whose snippet or title mentions "competitors" |
| `Records.Candidates` | src/agents/Data_collection_agent.py:142-147 | one candidate URL per suffix |
| `Records.CandidatesIgnoreTrailingSlash` | src/agents/Data_collection_agent.py:142-147 | a trailing slash on the website address does not change the candidate URLs |
| `Records.FirstAccepted` | src/agents/Data_collection_agent.py:149-162 | a section found by the fallback has more than 100 characters of text and no top image |
| `Records.FirstAcceptedNone` | src/agents/Data_collection_agent.py:149-162 | the fallback finds nothing exactly when no candidate fetches with more than 100 characters of text |
| `Records.FirstAcceptedWins` | src/agents/Data_collection_agent.py:149-162 | the first candidate that fetches with more than 100 characters of text gives the stored section, whatever comes after it |
| `Records.PutFound` | src/agents/Data_collection_agent.py:156-159 | storing a found section keeps the dictionary well formed |
| `Records.Scraped` | src/agents/Data_collection_agent.py:135-185 | `main` holds the main page with its top image. `about` and `products` hold the first acceptable page when one is found, and otherwise keep their earlier state. All other sections are unchanged and no other key is added |
| `Records.NewsTexts` | src/agents/Data_collection_agent.py:203-210 | at most two texts per article, none of them empty |
| `Records.NewsTextsComplete` | src/agents/Data_collection_agent.py:207-210 | the truthy content and the truthy description of every article are among the news texts |
| `Records.NewsTextsAppend` | src/agents/Data_collection_agent.py:204-210 | news texts are gathered article by article: the texts of two lists of articles are the texts of each, in order |
| `Records.SectionTexts` | src/agents/Data_collection_agent.py:199-202 | one text per website section |
| `Records.SourceTexts` | src/agents/Data_collection_agent.py:199-214 | the gathered texts are one per website section followed by at most two non-empty texts per article |
| `Records.NewsTextsAreTruthyFields` | src/agents/Data_collection_agent.py:203-210 | every news text is the non-empty content or description of some article, so a null or empty field never contributes |
| `Collector.ResolveFallback` | src/agents/Data_collection_agent.py:149-162 | the fallback loop with its `break` returns the first accepted candidate's section, or nothing |
| `Collector.GatherTexts` | src/agents/Data_collection_agent.py:196-214 | the gathering loops produce the section texts in dictionary order, then each article's truthy content and description |
| `Collector.FilterCompetitors` | src/agents/Data_collection_agent.py:251-269 | the filtering loop produces the order-preserving competitor entries of the items |
| `Collector.CompanyDataCollector.constructor` | src/agents/Data_collection_agent.py:20-37 | a new record has the given name, description and timestamp, no website, no search results, and empty news, website content, keywords and competitors |
| `Collector.CompanyDataCollector.FetchGoogleSearchResults` | src/agents/Data_collection_agent.py:39-79 | a delivered answer replaces `search_results` with one hit per item. The official website becomes the link of the last matching item, and stays as it was if none matches. An unusable answer returns False and changes nothing. An exception propagates. Other fields are unchanged |
| `Collector.CompanyDataCollector.FetchNewsArticles` | src/agents/Data_collection_agent.py:81-118 | a delivered answer appends its first 20 articles, in order, to the existing news. An unusable answer returns False and changes nothing. Other fields are unchanged |
| `Collector.CompanyDataCollector.ScrapeCompanyWebsite` | src/agents/Data_collection_agent.py:120-190 | without a truthy website it returns False and changes nothing. A failing main page raises. Otherwise the website content becomes the scraped sections and it returns True |
| `Collector.CompanyDataCollector.ExtractIndustryKeywords` | src/agents/Data_collection_agent.py:192-232 | the keywords become the top-50 ranking of the words of the gathered texts, and the step returns True |
| `Collector.CompanyDataCollector.FindCompetitors` | src/agents/Data_collection_agent.py:234-275 | `competitors` is replaced by the filtered entries of a delivered answer, or by an empty list for an unusable answer. The step returns True in both cases, and raises only if the search raises |
| `Collector.CompanyDataCollector.CollectAllCompanyData` | src/agents/Data_collection_agent.py:277-301 | the collection stops exactly when a search call raises or the main page download fails. Otherwise it returns each step's status and `data/companies/{slug}_data.json`. The search results are the hits of a delivered answer. The official website is the link of the last matching item, or is kept when nothing matches or the answer is unusable. Up to 20 articles are appended to the news. The website content is scraped from a truthy website and kept otherwise. Keywords and competitors are computed from the final record |
| `Social.MastodonFullHandle` | src/agents/Data_collection_agent.py:493-497 | a handle "@user@instance" is called with that user and instance |
| `Social.MastodonFields` | src/agents/Data_collection_agent.py:493-497 | a handle of three or more '@'-free fields joined by '@' is called with the second field as user and the third as instance |
| `Social.ExampleHandle` | testing.py:13 | the example handle names user "hindustanunilever" on "mastodon.social" |
| `Social.MastodonCallFor` | src/agents/Data_collection_agent.py:493-499 | with fewer than two '@' the whole handle is used with instance "mastodon.social". Otherwise neither user nor instance contains '@' |
| `Social.TwitterStepAsWritten` | src/agents/Data_collection_agent.py:400-403 | as written, a successful extraction returns True and a failed one raises, because its handler calls `logger.info.error` |
| `Social.TwitterStep` | src/agents/Data_collection_agent.py:400-403 | as intended, the step never raises and reports True exactly when the extraction succeeds |
| `Social.FailedTwitterExtraction` | src/agents/Data_collection_agent.py:400-403 | for a failed extraction the code as written raises where the intended step reports False |
| `Social.CollectAllSocialData` | src/agents/Data_collection_agent.py:476-518 | the status has the four platforms. Each is False unless its handle is truthy. Twitter reports its extractor's result, by the intended step, and the placeholders report True. The Mastodon call is made exactly for a truthy handle, with the split arguments. The file is `data/social/{slug}_social_data.json` |
| `Paths.Slug` | src/agents/Data_collection_agent.py:292 | the stem has the length of the name. Each space becomes '_' and each ASCII capital its small letter, so the stem has no spaces and no capitals |
| `Paths.SlugKeeps` | src/agents/Data_collection_agent.py:292 | characters other than spaces and capitals stay in place |
| `Paths.SlugIdempotent` | src/agents/Data_collection_agent.py:292 | deriving the stem twice changes nothing |
| `Paths.SlugIgnoresCase` | src/agents/Data_collection_agent.py:292 | names that differ only in letter case share a stem |
| `Paths.CompanyDataPath` | src/agents/Data_collection_agent.py:292 | the data file lies in `data/companies/`, ends in `_data.json` and has the stem in between |
| `Paths.SocialDataPath` | src/agents/Data_collection_agent.py:508 | the social data file lies in `data/social/`, ends in `_social_data.json` and has the stem in between |
| `Paths.SummaryPath` | src/agents/Data_collection_agent.py:578 | the summary file lies in `data/summaries/`, ends in `_collection_summary.json` and has the stem in between |
| `Paths.ExampleCompanyPath` | src/agents/Data_collection_agent.py:292 | "HDFC Bank" is written to `data/companies/hdfc_bank_data.json` |
| `Paths.CompanyDataPathClash` | src/agents/Data_collection_agent.py:292 | two companies share a data file exactly when their stems agree |
| `Paths.SpaceAndUnderscoreClash` | src/agents/Data_collection_agent.py:292 | "Acme Corp" and "acme_corp" write the same data file |
| `Paths.SocialDataPathClash` | src/agents/Data_collection_agent.py:508 | two companies share a social data file exactly when their stems agree |
| `Paths.SummaryPathClash` | src/agents/Data_collection_agent.py:578 | two companies share a summary file exactly when their stems agree |

### Behaviour to note

The model follows the code in each case but one: the failing Twitter step, recorded under Findings.

- The official website is the link of the LAST matching search item. The loop has no `break`, so each later match overwrites the earlier one.
- The cap of 20 news articles applies per call. A second call appends up to 20 more.
- `scrape_company_website` downloads the main page outside the per-candidate `try`. A failing main page therefore raises, `collect_all_company_data` does not catch it, and the remaining steps do not run. The same holds for any exception out of a search request.
- A social platform whose handle is not truthy reports False. There is no separate "not attempted" state. A failed Twitter extraction is meant to report False too, but as written it raises (see Findings).
- `find_competitors` returns True also when the search answer is unusable, leaving `competitors` empty.

## Left out

- HTTP requests, status codes and JSON decoding of Google Custom Search and NewsAPI are not modelled. Each call becomes an `ApiResponse` input. The query parameters are not modelled, including the text of the competitor query. That query is modelled only by the three keywords it is built from.
- `newspaper.Article` download and parsing is not modelled. It becomes the `fetch` function input.
- The Twitter extractor (`tweepy`, with profile, timeline and replies) is not modelled. It becomes the `twitter` function input. The Bluesky, Mastodon and Threads placeholders produce dummy posts stamped with the clock. Only their result, True, is kept. `social_data` itself is not modelled.
- Clocks are not modelled: `datetime.now()`, the 30-day `from` date and the orchestrator's duration. The construction timestamp is a parameter.
- JSON file writes and `os.makedirs` are not modelled. Only the file names are.
- `DataCollectionOrchestrator` is not modelled, except its summary file name. Its work is sequencing and file output, and its social step is commented out.
- `utils/logger.py`, logging in general, the `SocialMediaAgentException` wrapping and the `logger.info.error` calls of the placeholder handlers (lines 426, 450 and 473) are not modelled. Those placeholders do not fail, so their handlers are never reached. The Twitter handler is under Findings. An exception that leaves a step is the outcome `Raised`.
- `Text.LowerChar`: lower-cases the ASCII letters only. Python's `str.lower` also maps non-ASCII capitals. That case mapping is not modelled.
- `Text.Lower`: keeps the length because it lowers one ASCII character at a time. Python's `str.lower` can change the length of a string (for example 'İ').
- `Text.LowerAppend`: lowering distributes over concatenation only because it works character by character. Under Python's final-sigma rule, `"ΑΣ".lower()` is "ας", while `"Α".lower() + "Σ".lower()` is "ασ".
- `Paths.Slug`: the stem is lowered by `Text.LowerChar`, so the non-ASCII case mapping of Python's `str.lower` is not modelled, and the stem always has the length of the name.
- `Paths.SlugIgnoresCase`: holds for names that differ in ASCII letter case. Names that differ in non-ASCII case are not covered.
- `Collector.CompanyDataCollector.FetchNewsArticles`: does not model a JSON null in the title, source, url or publishedAt fields of an article, nor a null `source` object (which makes the source code raise). Only content and description distinguish a null from a missing key.
- `Collector.CompanyDataCollector.FetchGoogleSearchResults`: a matching item without `link` sets the official website to None. The model does not distinguish that from a website that was never set, which is harmless because both are falsy for the scraping step.
- `Collector.GatherTexts`: every website section is a record with a text, so the `isinstance(section, dict) and "text" in section` test and the `None` filter of line 214 always pass. They are not modelled separately.
- `Social.CollectAllSocialData`: models the intended Twitter step, where a failed extraction reports False. As written, the handler at line 402 raises AttributeError, so `collect_all_social_data` raises for such a handle (see Findings).
- `Collector.CompanyDataCollector.FetchGoogleSearchResults`: a search item's fields are optional strings, so a JSON null is not modelled. In the code, a null `displayLink` raises at line 63. A null title, link or snippet is stored as None at lines 68-70, where the model stores "" for a missing field.
- `Collector.CompanyDataCollector.FindCompetitors`: a JSON null snippet, or a null title when the snippet does not mention "competitors", raises at line 264 in the code. The model has no null for these fields.

## Findings

| source | as written | input that shows it | evidently intended | confidence | as-written member | corrected member |
|---|---|---|---|---|---|---|
| src/agents/Data_collection_agent.py:401-403 | the handler of `extract_twitter_data` calls `logger.info.error`, which raises AttributeError, so the step raises instead of returning | any Twitter handle whose extraction fails | log the error and return False | not executed | `Social.TwitterStepAsWritten` | `Social.TwitterStep` |
