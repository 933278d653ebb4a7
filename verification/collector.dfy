/** `CompanyDataCollector`: one company record (`company_data`) filled in place by the steps of
    `collect_all_company_data`. The answers of Google Custom Search and NewsAPI and the pages that
    `newspaper` downloads are inputs of the steps. */
module Collector {
  import opened Wrappers
  import opened OrderedMaps
  import opened Keywords
  import opened Ranking
  import opened Records
  import opened Paths

  /** At most this many articles of one NewsAPI answer are kept. */
  const NewsCap: nat := 20

  /** The keywords that go into the competitor query. */
  const QueryKeywords: nat := 3

  /** The fallback loop over candidate pages: the first page whose fetch succeeds with more than
      100 characters of text; a failing fetch is skipped. */
  method ResolveFallback(candidates: seq<string>, fetch: string -> FetchResult) returns (found: Option<Section>)
    ensures found == FirstAccepted(candidates, fetch)
  {
    found := None;
    var i := 0;
    while i < |candidates|
      invariant 0 <= i <= |candidates|
      invariant FirstAccepted(candidates, fetch) == FirstAccepted(candidates[i..], fetch)
    {
      var page := fetch(candidates[i]);
      if page.Page? && |page.text| > 100 {
        found := Some(Section(page.title, page.text, None));
        return;
      }
      assert candidates[i..][1..] == candidates[i + 1..];
      i := i + 1;
    }
  }

  /** The gathering loops of `extract_industry_keywords`: the text of every website section, then
      the truthy content and description of every news item. */
  method GatherTexts(content: OrderedMap<string, Section>, news: seq<NewsItem>) returns (texts: seq<string>)
    requires content.Valid()
    ensures texts == SourceTexts(content, news)
  {
    texts := [];
    var sections := content.Values();
    for i := 0 to |sections|
      invariant texts == SectionTexts(sections[..i])
    {
      texts := texts + [sections[i].text];
    }
    assert sections[..|sections|] == sections;
    for i := 0 to |news|
      invariant texts == SectionTexts(sections) + NewsTexts(news[..i])
    {
      var item := news[i];
      assert news[..i + 1][..i] == news[..i];
      assert NewsTexts(news[..i + 1]) == NewsTexts(news[..i])
        + (if Truthy(item.content) then [item.content.value] else [])
        + (if Truthy(item.description) then [item.description.value] else []);
      if Truthy(item.content) {
        texts := texts + [item.content.value];
      }
      if Truthy(item.description) {
        texts := texts + [item.description.value];
      }
    }
    assert news[..|news|] == news;
  }

  /** The filtering loop of `find_competitors`. */
  method FilterCompetitors(items: seq<SearchItem>) returns (competitors: seq<Competitor>)
    ensures competitors == CompetitorsOf(items)
  {
    competitors := [];
    for i := 0 to |items|
      invariant competitors == CompetitorsOf(items[..i])
    {
      assert items[..i + 1][..i] == items[..i];
      if MentionsCompetitors(items[i]) {
        competitors := competitors + [ToCompetitor(items[i])];
      }
    }
    assert items[..|items|] == items;
  }

  /** The `status` dictionary of `collect_all_company_data`. */
  datatype CompanyStatus = CompanyStatus(googleSearch: bool, news: bool, website: bool, keywords: bool, competitors: bool)

  /** What `collect_all_company_data` returns, or that one of its steps raised. */
  datatype CompanyResult = Collected(status: CompanyStatus, filePath: string) | CollectionRaised

  class CompanyDataCollector {
    const companyName: string
    const companyDescription: string
    /** `basic_info.timestamp`, the clock reading taken at construction. */
    const timestamp: string
    /** `basic_info.official_website`; None while unset or when the matching item had no link. */
    var officialWebsite: Option<string>
    /** `search_results`; None until a search delivers items. */
    var searchResults: Option<seq<SearchHit>>
    var news: seq<NewsItem>
    var websiteContent: OrderedMap<string, Section>
    var industryKeywords: seq<string>
    var competitors: seq<Competitor>

    ghost predicate Valid()
      reads this
    {
      websiteContent.Valid()
    }

    constructor (companyName: string, companyDescription: string, timestamp: string)
      ensures Valid()
      ensures this.companyName == companyName && this.companyDescription == companyDescription
      ensures this.timestamp == timestamp
      ensures officialWebsite == None && searchResults == None
      ensures news == [] && websiteContent == Empty() && industryKeywords == [] && competitors == []
    {
      this.companyName := companyName;
      this.companyDescription := companyDescription;
      this.timestamp := timestamp;
      officialWebsite := None;
      searchResults := None;
      news := [];
      websiteContent := Empty();
      industryKeywords := [];
      competitors := [];
    }

    /** `fetch_google_search_results`: records one hit per item and keeps, as the official
        website, the link of the last item whose display link matches the company name. */
    method FetchGoogleSearchResults(response: ApiResponse<SearchItem>) returns (outcome: StepOutcome)
      requires Valid()
      modifies this
      ensures Valid()
      ensures outcome == if response.RequestRaised? then Raised else Returned(response.Delivered?)
      ensures response.Delivered? ==> searchResults == Some(HitsOf(response.items))
      ensures !response.Delivered? ==> searchResults == old(searchResults) && officialWebsite == old(officialWebsite)
      ensures response.Delivered? && (forall k :: 0 <= k < |response.items| ==> !IsOfficialSite(response.items[k], companyName))
        ==> officialWebsite == old(officialWebsite)
      ensures response.Delivered? ==>
        forall k :: LastOfficial(response.items, companyName, k) ==> officialWebsite == response.items[k].link
      ensures news == old(news) && websiteContent == old(websiteContent)
      ensures industryKeywords == old(industryKeywords) && competitors == old(competitors)
    {
      match response
      case RequestRaised =>
        outcome := Raised;
      case RequestFailed =>
        outcome := Returned(false);
      case Delivered(items) =>
        searchResults := Some([]);
        for i := 0 to |items|
          invariant searchResults == Some(HitsOf(items[..i]))
          invariant (forall k :: 0 <= k < i ==> !IsOfficialSite(items[k], companyName)) ==> officialWebsite == old(officialWebsite)
          invariant forall k :: LastOfficial(items[..i], companyName, k) ==> officialWebsite == items[k].link
          invariant news == old(news) && websiteContent == old(websiteContent)
          invariant industryKeywords == old(industryKeywords) && competitors == old(competitors)
        {
          var item := items[i];
          if IsOfficialSite(item, companyName) {
            LastOfficialTake(items, companyName, i);
            officialWebsite := item.link;
          } else {
            LastOfficialSkip(items, companyName, i);
          }
          assert HitsOf(items[..i + 1]) == HitsOf(items[..i]) + [ToSearchHit(item)];
          searchResults := Some(searchResults.value + [ToSearchHit(item)]);
        }
        assert items[..|items|] == items;
        outcome := Returned(true);
    }

    /** `fetch_news_articles`: appends the first 20 delivered articles to `news`. */
    method FetchNewsArticles(response: ApiResponse<Article>) returns (outcome: StepOutcome)
      requires Valid()
      modifies this
      ensures Valid()
      ensures outcome == if response.RequestRaised? then Raised else Returned(response.Delivered?)
      ensures response.Delivered? ==> news == old(news) + NewsItemsOf(Head(response.items, NewsCap))
      ensures !response.Delivered? ==> news == old(news)
      ensures |old(news)| <= |news| <= |old(news)| + NewsCap
      ensures officialWebsite == old(officialWebsite) && searchResults == old(searchResults)
      ensures websiteContent == old(websiteContent)
      ensures industryKeywords == old(industryKeywords) && competitors == old(competitors)
    {
      match response
      case RequestRaised =>
        outcome := Raised;
      case RequestFailed =>
        outcome := Returned(false);
      case Delivered(items) =>
        var articles := Head(items, NewsCap);
        for i := 0 to |articles|
          invariant news == old(news) + NewsItemsOf(articles[..i])
          invariant officialWebsite == old(officialWebsite) && searchResults == old(searchResults)
          invariant websiteContent == old(websiteContent)
          invariant industryKeywords == old(industryKeywords) && competitors == old(competitors)
        {
          assert NewsItemsOf(articles[..i + 1]) == NewsItemsOf(articles[..i]) + [ToNewsItem(articles[i])];
          news := news + [ToNewsItem(articles[i])];
        }
        assert articles[..|articles|] == articles;
        outcome := Returned(true);
    }

    /** `scrape_company_website`: without a truthy official website it returns False; a failing
        main page download raises; otherwise the main page, and the first acceptable about and
        products pages, are stored. */
    method ScrapeCompanyWebsite(fetch: string -> FetchResult) returns (outcome: StepOutcome)
      requires Valid()
      modifies this
      ensures Valid()
      ensures !Truthy(officialWebsite) ==> outcome == Returned(false) && websiteContent == old(websiteContent)
      ensures Truthy(officialWebsite) && fetch(officialWebsite.value).FetchFailed? ==>
        outcome == Raised && websiteContent == old(websiteContent)
      ensures Truthy(officialWebsite) && fetch(officialWebsite.value).Page? ==>
        outcome == Returned(true) && websiteContent == Scraped(old(websiteContent), officialWebsite.value, fetch)
      ensures officialWebsite == old(officialWebsite) && searchResults == old(searchResults)
      ensures news == old(news) && industryKeywords == old(industryKeywords) && competitors == old(competitors)
    {
      if !Truthy(officialWebsite) {
        return Returned(false);
      }
      var url := officialWebsite.value;
      var main := fetch(url);
      if main.FetchFailed? {
        return Raised;
      }
      websiteContent := websiteContent.Put("main", Section(main.title, main.text, Some(main.topImage)));
      var about := ResolveFallback(Candidates(url, AboutPaths), fetch);
      if about.Some? {
        websiteContent := websiteContent.Put("about", about.value);
      }
      var products := ResolveFallback(Candidates(url, ProductPaths), fetch);
      if products.Some? {
        websiteContent := websiteContent.Put("products", products.value);
      }
      outcome := Returned(true);
    }

    /** `extract_industry_keywords`: the 50 most frequent counted words of the gathered texts. */
    method ExtractIndustryKeywords() returns (outcome: StepOutcome)
      requires Valid()
      modifies this
      ensures Valid()
      ensures outcome == Returned(true)
      ensures industryKeywords == TopKeywords(TextWords(SourceTexts(websiteContent, news)))
      ensures officialWebsite == old(officialWebsite) && searchResults == old(searchResults)
      ensures news == old(news) && websiteContent == old(websiteContent) && competitors == old(competitors)
    {
      var texts := GatherTexts(websiteContent, news);
      var words := TextWords(texts);
      var freq := CountFrequencies(words);
      var ranked := SortByCount(freq.Items());
      industryKeywords := KeysOf(Head(ranked, TopN));
      outcome := Returned(true);
    }

    /** `find_competitors`: searches with the first three keywords and replaces `competitors` by
        the hits that mention competitors; an unusable answer leaves the list empty. */
    method FindCompetitors(search: seq<string> -> ApiResponse<SearchItem>) returns (outcome: StepOutcome)
      requires Valid()
      modifies this
      ensures Valid()
      ensures search(Head(industryKeywords, QueryKeywords)).RequestRaised? ==>
        outcome == Raised && competitors == old(competitors)
      ensures !search(Head(industryKeywords, QueryKeywords)).RequestRaised? ==>
        outcome == Returned(true) && competitors == CompetitorsFound(search(Head(industryKeywords, QueryKeywords)))
      ensures officialWebsite == old(officialWebsite) && searchResults == old(searchResults)
      ensures news == old(news) && websiteContent == old(websiteContent) && industryKeywords == old(industryKeywords)
    {
      var response := search(Head(industryKeywords, QueryKeywords));
      match response
      case RequestRaised =>
        outcome := Raised;
      case RequestFailed =>
        competitors := [];
        outcome := Returned(true);
      case Delivered(items) =>
        competitors := FilterCompetitors(items);
        outcome := Returned(true);
    }

    /** `collect_all_company_data`: the five steps in order; an exception from any of them ends
        the collection. Otherwise the status of each step and the data file path are returned. */
    method CollectAllCompanyData(
      searchResponse: ApiResponse<SearchItem>,
      newsResponse: ApiResponse<Article>,
      fetch: string -> FetchResult,
      competitorSearch: seq<string> -> ApiResponse<SearchItem>)
      returns (result: CompanyResult)
      requires Valid()
      modifies this
      ensures Valid()
      ensures result.CollectionRaised? <==>
        || searchResponse.RequestRaised?
        || newsResponse.RequestRaised?
        || (Truthy(officialWebsite) && fetch(officialWebsite.value).FetchFailed?)
        || competitorSearch(Head(industryKeywords, QueryKeywords)).RequestRaised?
      ensures result.Collected? ==>
        result.status == CompanyStatus(searchResponse.Delivered?, newsResponse.Delivered?, Truthy(officialWebsite), true, true)
      ensures result.Collected? ==> result.filePath == CompanyDataPath(companyName)
      ensures result.Collected? ==> industryKeywords == TopKeywords(TextWords(SourceTexts(websiteContent, news)))
      ensures result.Collected? ==>
        competitors == CompetitorsFound(competitorSearch(Head(industryKeywords, QueryKeywords)))
      ensures result.Collected? && searchResponse.Delivered? ==> searchResults == Some(HitsOf(searchResponse.items))
      ensures result.Collected? && searchResponse.Delivered? ==>
        forall k :: LastOfficial(searchResponse.items, companyName, k) ==> officialWebsite == searchResponse.items[k].link
      ensures result.Collected? && searchResponse.Delivered? &&
        (forall k :: 0 <= k < |searchResponse.items| ==> !IsOfficialSite(searchResponse.items[k], companyName))
        ==> officialWebsite == old(officialWebsite)
      ensures result.Collected? && !searchResponse.Delivered? ==>
        searchResults == old(searchResults) && officialWebsite == old(officialWebsite)
      ensures result.Collected? ==>
        news == old(news) + (if newsResponse.Delivered? then NewsItemsOf(Head(newsResponse.items, NewsCap)) else [])
      ensures result.Collected? && Truthy(officialWebsite) ==>
        websiteContent == Scraped(old(websiteContent), officialWebsite.value, fetch)
      ensures result.Collected? && !Truthy(officialWebsite) ==> websiteContent == old(websiteContent)
    {
      var google := FetchGoogleSearchResults(searchResponse);
      if google.Raised? {
        return CollectionRaised;
      }
      var newsStep := FetchNewsArticles(newsResponse);
      if newsStep.Raised? {
        return CollectionRaised;
      }
      var website := ScrapeCompanyWebsite(fetch);
      if website.Raised? {
        return CollectionRaised;
      }
      var keywords := ExtractIndustryKeywords();
      var competitorStep := FindCompetitors(competitorSearch);
      if competitorStep.Raised? {
        return CollectionRaised;
      }
      result := Collected(
        CompanyStatus(google.ok, newsStep.ok, website.ok, keywords.ok, competitorStep.ok),
        CompanyDataPath(companyName));
    }
  }
}
