/** The records `CompanyDataCollector` builds, what its collaborators hand it, and the per-item
    rules of its steps: which search hit names the official website, which hits mention
    competitors, which pages the website fallback accepts and which texts feed the keywords. */
module Records {
  import opened Wrappers
  import opened Text
  import opened OrderedMaps

  /** A string field of a JSON object, which may be missing or `null`. */
  datatype JsonText = Missing | Null | Str(s: string)

  /** One element of the `items` list of a Google Custom Search answer; None for a missing key. */
  datatype SearchItem = SearchItem(
    title: Option<string>, link: Option<string>, snippet: Option<string>, displayLink: Option<string>)

  /** One element of `search_results`. */
  datatype SearchHit = SearchHit(title: string, link: string, snippet: string)

  /** One element of the `articles` list of a NewsAPI answer; None for a missing key. */
  datatype Article = Article(
    title: Option<string>, sourceName: Option<string>, url: Option<string>,
    publishedAt: Option<string>, content: JsonText, description: JsonText)

  /** One element of `news`; `content` and `description` are None where the API sent `null`. */
  datatype NewsItem = NewsItem(
    title: string, source: string, url: string, publishedAt: string,
    content: Option<string>, description: Option<string>)

  /** One value of `website_content`; only the main page records a top image. */
  datatype Section = Section(title: string, text: string, topImage: Option<string>)

  /** One element of `competitors`. */
  datatype Competitor = Competitor(source: string, title: string, snippet: string)

  /** Downloading and parsing one URL with `newspaper.Article`: it raises, or it yields a page. */
  datatype FetchResult = FetchFailed | Page(title: string, text: string, topImage: string)

  /** One call to a search API: it raised, it answered without results to use (a status other
      than 200, no `items` key, a NewsAPI status other than "ok"), or it delivered its items. */
  datatype ApiResponse<T> = RequestRaised | RequestFailed | Delivered(items: seq<T>)

  /** What one step of the collector does: returns True or False, or lets an exception out. */
  datatype StepOutcome = Returned(ok: bool) | Raised

  /** Python truthiness of an optional string: present and not empty. */
  predicate Truthy(o: Option<string>) {
    o.Some? && o.value != ""
  }

  /** `article.get(key, '')` on a text field: a missing key gives '', a `null` stays None. */
  function Stored(f: JsonText): (r: Option<string>)
    ensures r.None? <==> f.Null?
    ensures Truthy(r) <==> f.Str? && f.s != ""
  {
    match f
    case Missing => Some("")
    case Null => None
    case Str(s) => Some(s)
  }

  function ToSearchHit(item: SearchItem): SearchHit {
    SearchHit(item.title.GetOr(""), item.link.GetOr(""), item.snippet.GetOr(""))
  }

  /** `search_results` for a list of items: one hit per item, in item order. */
  function HitsOf(items: seq<SearchItem>): (hits: seq<SearchHit>)
    ensures |hits| == |items|
  {
    seq(|items|, i requires 0 <= i < |items| => ToSearchHit(items[i]))
  }

  function ToNewsItem(a: Article): NewsItem {
    NewsItem(a.title.GetOr(""), a.sourceName.GetOr(""), a.url.GetOr(""), a.publishedAt.GetOr(""),
             Stored(a.content), Stored(a.description))
  }

  /** The test of `fetch_google_search_results` for the official website: the lower-cased
      `displayLink` (or '') and the lower-cased company name, one inside the other. */
  predicate IsOfficialSite(item: SearchItem, companyName: string) {
    var link := Lower(item.displayLink.GetOr(""));
    var name := Lower(companyName);
    Contains(name, link) || Contains(link, name)
  }

  /** The test is a plain substring test in either direction. */
  lemma IsOfficialSiteMeaning(item: SearchItem, companyName: string)
    ensures IsOfficialSite(item, companyName) <==>
      var link, name := Lower(item.displayLink.GetOr("")), Lower(companyName);
      Occurs(link, name) || Occurs(name, link)
  {
    var link, name := Lower(item.displayLink.GetOr("")), Lower(companyName);
    ContainsIsOccurs(name, link);
    ContainsIsOccurs(link, name);
  }

  /** Item `k` matches the company name and no later item does. */
  predicate LastOfficial(items: seq<SearchItem>, companyName: string, k: int) {
    && 0 <= k < |items|
    && IsOfficialSite(items[k], companyName)
    && forall j :: k < j < |items| ==> !IsOfficialSite(items[j], companyName)
  }

  /** Scanning one more item that does not match keeps the last match found so far. */
  lemma LastOfficialSkip(items: seq<SearchItem>, companyName: string, i: nat)
    requires i < |items| && !IsOfficialSite(items[i], companyName)
    ensures forall k :: LastOfficial(items[..i + 1], companyName, k) ==> LastOfficial(items[..i], companyName, k)
  {
    forall k | LastOfficial(items[..i + 1], companyName, k)
      ensures LastOfficial(items[..i], companyName, k)
    {
      assert k != i;
      assert forall j :: k < j < i ==> items[..i][j] == items[..i + 1][j];
    }
  }

  /** Scanning one more item that matches makes it the last match: any last match is that item. */
  lemma LastOfficialTake(items: seq<SearchItem>, companyName: string, i: nat)
    requires i < |items| && IsOfficialSite(items[i], companyName)
    ensures forall k :: LastOfficial(items[..i + 1], companyName, k) ==> items[k] == items[i]
  {
    assert items[..i + 1][i] == items[i];
  }

  /** The stored news items for a list of articles, in order. */
  function NewsItemsOf(articles: seq<Article>): (items: seq<NewsItem>)
    ensures |items| == |articles|
  {
    seq(|articles|, i requires 0 <= i < |articles| => ToNewsItem(articles[i]))
  }

  /** A hit without `displayLink` counts as the official website whatever the company name. */
  lemma MissingDisplayLinkMatches(item: SearchItem, companyName: string)
    requires item.displayLink.None?
    ensures IsOfficialSite(item, companyName)
  {
    assert Lower("") == "";
  }

  /** The test of `find_competitors`: "competitors" in the lower-cased snippet or title. */
  predicate MentionsCompetitors(item: SearchItem) {
    Contains(Lower(item.snippet.GetOr("")), "competitors") || Contains(Lower(item.title.GetOr("")), "competitors")
  }

  function ToCompetitor(item: SearchItem): Competitor {
    Competitor(item.link.GetOr(""), item.title.GetOr(""), item.snippet.GetOr(""))
  }

  /** The competitor entries made from `items`, in item order. */
  function CompetitorsOf(items: seq<SearchItem>): (competitors: seq<Competitor>)
    ensures |competitors| <= |items|
  {
    if items == [] then []
    else
      var last := items[|items| - 1];
      CompetitorsOf(items[..|items| - 1]) + if MentionsCompetitors(last) then [ToCompetitor(last)] else []
  }

  /** The filter works item by item: a list of items gives the entries of its parts, in order. */
  lemma {:induction false} CompetitorsOfAppend(a: seq<SearchItem>, b: seq<SearchItem>)
    ensures CompetitorsOf(a + b) == CompetitorsOf(a) + CompetitorsOf(b)
    decreases |b|
  {
    if b == [] {
      assert a + b == a;
    } else {
      var last := b[|b| - 1];
      assert (a + b)[..|a + b| - 1] == a + b[..|b| - 1];
      CompetitorsOfAppend(a, b[..|b| - 1]);
      assert (a + b)[|a + b| - 1] == last;
    }
  }

  /** Every entry comes from an item that mentions competitors. */
  lemma {:induction false} CompetitorsOfSources(items: seq<SearchItem>)
    ensures forall c :: c in CompetitorsOf(items) ==>
      exists k :: 0 <= k < |items| && MentionsCompetitors(items[k]) && c == ToCompetitor(items[k])
  {
    if items != [] {
      var pre := items[..|items| - 1];
      CompetitorsOfSources(pre);
      forall c | c in CompetitorsOf(items)
        ensures exists k :: 0 <= k < |items| && MentionsCompetitors(items[k]) && c == ToCompetitor(items[k])
      {
        if c in CompetitorsOf(pre) {
          var k :| 0 <= k < |pre| && MentionsCompetitors(pre[k]) && c == ToCompetitor(pre[k]);
          assert items[k] == pre[k];
        } else {
          assert MentionsCompetitors(items[|items| - 1]);
        }
      }
    }
  }

  /** Every item that mentions competitors gives an entry: the filter drops no such item. */
  lemma {:induction false} CompetitorsOfComplete(items: seq<SearchItem>, k: nat)
    requires k < |items| && MentionsCompetitors(items[k])
    ensures ToCompetitor(items[k]) in CompetitorsOf(items)
  {
    var pre := items[..|items| - 1];
    if k < |items| - 1 {
      assert pre[k] == items[k];
      CompetitorsOfComplete(pre, k);
    }
  }

  /** What `find_competitors` stores for a search answer: nothing unless items were delivered. */
  function CompetitorsFound(response: ApiResponse<SearchItem>): (competitors: seq<Competitor>)
    requires !response.RequestRaised?
    ensures response.RequestFailed? ==> competitors == []
    ensures response.Delivered? ==> |competitors| <= |response.items|
  {
    if response.Delivered? then CompetitorsOf(response.items) else []
  }

  /** The about-page and product-page suffixes, in the order they are tried. */
  const AboutPaths: seq<string> := ["/about", "/about-us", "/company", "/our-company"]
  const ProductPaths: seq<string> := ["/products", "/services", "/brands"]

  /** `f"{base.rstrip('/')}{path}"` for each path, in order. */
  function Candidates(base: string, paths: seq<string>): (urls: seq<string>)
    ensures |urls| == |paths|
  {
    seq(|paths|, i requires 0 <= i < |paths| => RStrip(base, '/') + paths[i])
  }

  /** A trailing slash on the website address does not change the candidates. */
  lemma CandidatesIgnoreTrailingSlash(base: string, paths: seq<string>)
    ensures Candidates(base + "/", paths) == Candidates(base, paths)
  {
    assert (base + "/")[..|base + "/"| - 1] == base;
    assert RStrip(base + "/", '/') == RStrip(base, '/');
    assert forall i :: 0 <= i < |paths| ==> Candidates(base + "/", paths)[i] == Candidates(base, paths)[i];
  }

  /** The quality bar of the fallback loops: the page was fetched and its text is longer than
      100 characters. */
  predicate Accepted(r: FetchResult) {
    r.Page? && |r.text| > 100
  }

  /** The section stored for an accepted about or product page (no top image). */
  function PageSection(r: FetchResult): Section
    requires r.Page?
  {
    Section(r.title, r.text, None)
  }

  /** The section of the first accepted candidate, or None when no candidate is accepted. */
  function FirstAccepted(candidates: seq<string>, fetch: string -> FetchResult): (found: Option<Section>)
    ensures found.Some? ==> |found.value.text| > 100 && found.value.topImage.None?
  {
    if candidates == [] then None
    else if Accepted(fetch(candidates[0])) then Some(PageSection(fetch(candidates[0])))
    else FirstAccepted(candidates[1..], fetch)
  }

  /** Nothing is found exactly when no candidate passes the quality bar. */
  lemma {:induction false} FirstAcceptedNone(candidates: seq<string>, fetch: string -> FetchResult)
    ensures FirstAccepted(candidates, fetch).None? <==>
      forall k :: 0 <= k < |candidates| ==> !Accepted(fetch(candidates[k]))
  {
    if candidates != [] {
      FirstAcceptedNone(candidates[1..], fetch);
      assert forall k :: 1 <= k < |candidates| ==> candidates[k] == candidates[1..][k - 1];
    }
  }

  /** The first candidate to pass the quality bar wins; none after it is looked at. */
  lemma {:induction false} FirstAcceptedWins(candidates: seq<string>, fetch: string -> FetchResult, k: nat)
    requires k < |candidates| && Accepted(fetch(candidates[k]))
    requires forall j :: 0 <= j < k ==> !Accepted(fetch(candidates[j]))
    ensures FirstAccepted(candidates, fetch) == Some(PageSection(fetch(candidates[k])))
  {
    if k > 0 {
      assert !Accepted(fetch(candidates[0]));
      assert forall j :: 0 <= j < k - 1 ==> candidates[1..][j] == candidates[j + 1];
      FirstAcceptedWins(candidates[1..], fetch, k - 1);
    }
  }

  /** `d[key] = found` when something was found. */
  function PutFound(content: OrderedMap<string, Section>, key: string, found: Option<Section>): (r: OrderedMap<string, Section>)
    requires content.Valid()
    ensures r.Valid()
  {
    if found.Some? then content.Put(key, found.value) else content
  }

  /** The keys a scrape may set. */
  const ScrapedKeys: set<string> := {"main", "about", "products"}

  /** After the fallback for `key`: the section found is stored; if none was found, the key is
      present exactly when it was present before, with its old value. */
  ghost predicate FoundOrKept(before: OrderedMap<string, Section>, after: OrderedMap<string, Section>, key: string, found: Option<Section>) {
    && (found.Some? ==> key in after.entries && after.entries[key] == found.value)
    && (found.None? ==> (key in after.entries <==> key in before.entries))
    && (found.None? && key in before.entries ==> after.entries[key] == before.entries[key])
  }

  /** `website_content` after a scrape of `url` whose main page was fetched. */
  function Scraped(content: OrderedMap<string, Section>, url: string, fetch: string -> FetchResult): (r: OrderedMap<string, Section>)
    requires content.Valid() && fetch(url).Page?
    ensures r.Valid()
    ensures "main" in r.entries
    ensures r.entries["main"] == Section(fetch(url).title, fetch(url).text, Some(fetch(url).topImage))
    ensures FoundOrKept(content, r, "about", FirstAccepted(Candidates(url, AboutPaths), fetch))
    ensures FoundOrKept(content, r, "products", FirstAccepted(Candidates(url, ProductPaths), fetch))
    ensures forall k :: k in content.entries && k !in ScrapedKeys ==> k in r.entries && r.entries[k] == content.entries[k]
    ensures forall k :: k in r.entries && k !in ScrapedKeys ==> k in content.entries
  {
    var main := fetch(url);
    var withMain := content.Put("main", Section(main.title, main.text, Some(main.topImage)));
    var withAbout := PutFound(withMain, "about", FirstAccepted(Candidates(url, AboutPaths), fetch));
    PutFound(withAbout, "products", FirstAccepted(Candidates(url, ProductPaths), fetch))
  }

  /** The texts the keyword step reads from the news: the truthy content, then the truthy
      description, article by article. */
  function NewsTexts(news: seq<NewsItem>): (texts: seq<string>)
    ensures |texts| <= 2 * |news|
    ensures forall k :: 0 <= k < |texts| ==> texts[k] != ""
  {
    if news == [] then []
    else
      var item := news[|news| - 1];
      NewsTexts(news[..|news| - 1])
        + (if Truthy(item.content) then [item.content.value] else [])
        + (if Truthy(item.description) then [item.description.value] else [])
  }

  /** A `null` or empty field never becomes a text: every news text is the non-empty content or
      description of some article. */
  lemma {:induction false} NewsTextsAreTruthyFields(news: seq<NewsItem>)
    ensures forall t :: t in NewsTexts(news) ==>
      (t != "" && exists k :: 0 <= k < |news| && (news[k].content == Some(t) || news[k].description == Some(t)))
  {
    if news != [] {
      var pre := news[..|news| - 1];
      NewsTextsAreTruthyFields(pre);
      forall t | t in NewsTexts(news)
        ensures t != "" &&
          exists k :: 0 <= k < |news| && (news[k].content == Some(t) || news[k].description == Some(t))
      {
        if t in NewsTexts(pre) {
          var k :| 0 <= k < |pre| && (pre[k].content == Some(t) || pre[k].description == Some(t));
          assert news[k] == pre[k];
        } else {
          var k := |news| - 1;
          assert news[k].content == Some(t) || news[k].description == Some(t);
        }
      }
    }
  }

  /** Every truthy content and description of an article is among the news texts. */
  lemma {:induction false} NewsTextsComplete(news: seq<NewsItem>, k: nat)
    requires k < |news|
    ensures Truthy(news[k].content) ==> news[k].content.value in NewsTexts(news)
    ensures Truthy(news[k].description) ==> news[k].description.value in NewsTexts(news)
  {
    var pre := news[..|news| - 1];
    if k < |news| - 1 {
      assert pre[k] == news[k];
      NewsTextsComplete(pre, k);
    }
  }

  /** The news texts are gathered article by article, in order. */
  lemma {:induction false} NewsTextsAppend(a: seq<NewsItem>, b: seq<NewsItem>)
    ensures NewsTexts(a + b) == NewsTexts(a) + NewsTexts(b)
    decreases |b|
  {
    if b == [] {
      assert a + b == a;
    } else {
      assert (a + b)[..|a + b| - 1] == a + b[..|b| - 1];
      NewsTextsAppend(a, b[..|b| - 1]);
      assert (a + b)[|a + b| - 1] == b[|b| - 1];
    }
  }

  /** The texts of the website sections, in dictionary order. */
  function SectionTexts(sections: seq<Section>): (texts: seq<string>)
    ensures |texts| == |sections|
  {
    seq(|sections|, i requires 0 <= i < |sections| => sections[i].text)
  }

  /** Everything `extract_industry_keywords` feeds into the word count, in order. */
  function SourceTexts(content: OrderedMap<string, Section>, news: seq<NewsItem>): (texts: seq<string>)
    requires content.Valid()
    ensures |content.keys| <= |texts| <= |content.keys| + 2 * |news|
    ensures forall k :: |content.keys| <= k < |texts| ==> texts[k] != ""
  {
    SectionTexts(content.Values()) + NewsTexts(news)
  }
}
