/** scraper.py: finding listing links on search-result pages, walking the pages, dropping
    repeated listings and parsing each remaining one. */
module Scraper {
  import opened Wrappers
  import opened PyStr
  import opened PyDict
  import opened Metadata
  import opened Schema
  import opened PageParser
  import opened CsvExport

  // ---- Search URLs ----

  /** `FINN_BASE_URL` */
  const FinnBaseUrl: string := "https://www.finn.no/realestate/homes/search.html?filters"

  /** A search's filters: query parameter names to values, in insertion order. */
  type Filters = Dict<string, string>

  /** `_generate_base_url`: the base URL alone without filters, otherwise the base URL, an
      ampersand and the encoded filters. `urlencode` is a parameter. */
  function GenerateBaseUrl(filters: Filters, urlencode: Filters -> string): string {
    if filters == [] then FinnBaseUrl else FinnBaseUrl + "&" + urlencode(filters)
  }

  /** Every search URL starts with the base URL. */
  lemma {:induction false} GenerateBaseUrlKeepsBase(filters: Filters, urlencode: Filters -> string)
    ensures StartsWith(GenerateBaseUrl(filters, urlencode), FinnBaseUrl)
  {
    if filters != [] {
      assert GenerateBaseUrl(filters, urlencode) == FinnBaseUrl + ("&" + urlencode(filters));
    }
  }

  /** The URL is the bare base URL exactly when there are no filters; otherwise an
      ampersand follows the base and the encoded filters follow it, so they can be read
      back from the URL. */
  lemma {:induction false} GenerateBaseUrlEmpty(filters: Filters, urlencode: Filters -> string)
    ensures GenerateBaseUrl(filters, urlencode) == FinnBaseUrl <==> filters == []
    ensures var u, n := GenerateBaseUrl(filters, urlencode), |FinnBaseUrl|;
      filters != [] ==> |u| > n && u[n] == '&' && u[n + 1..] == urlencode(filters)
  {
    var u, n := GenerateBaseUrl(filters, urlencode), |FinnBaseUrl|;
    if filters != [] {
      assert u == FinnBaseUrl + ("&" + urlencode(filters));
      assert |u| > n;
      assert u[n + 1..] == urlencode(filters);
    }
  }

  /** The filters of one page: a copy of the caller's filters with `page` set to the page
      number, in the decimal text `urlencode` gives an `int`. An existing `page` key keeps
      its place; otherwise it goes last. */
  function PageFilters(filters: Filters, page: nat): Filters {
    Set(filters, "page", ShowNat(page))
  }

  /** A page's filters hold the page number under `page` and the caller's value under every
      other key; they are never empty. */
  lemma {:induction false} PageFiltersShape(filters: Filters, page: nat)
    ensures Get(PageFilters(filters, page), "page") == Some(ShowNat(page))
    ensures forall k :: k != "page" ==> Get(PageFilters(filters, page), k) == Get(filters, k)
    ensures PageFilters(filters, page) != []
  {
    assert |Keys(PageFilters(filters, page))| >= 1;
  }

  /** Every page URL of a crawl carries the encoded filters, since they hold the page. */
  lemma {:induction false} PageUrlCarriesFilters(filters: Filters, page: nat, urlencode: Filters -> string)
    ensures GenerateBaseUrl(PageFilters(filters, page), urlencode)
         == FinnBaseUrl + "&" + urlencode(PageFilters(filters, page))
  {
    PageFiltersShape(filters, page);
  }

  // ---- Listing links ----

  /** The origin the optional prefix of `REALESTATE_PATTERN` names, and that every emitted
      url gets in front of the href. */
  const FinnOrigin: string := "https://www.finn.no"

  const RealestateDir: string := "/realestate/"

  const AdQuery: string := "/ad.html?finnkode="

  /** A path `REALESTATE_PATTERN` accepts after its optional origin, as the category and the
      finn code it captures, read by hand. */
  function MatchPath(path: string): (m: Option<(string, string)>)
    ensures m.Some? ==> m.value.0 != [] && AllLetters(m.value.0) && m.value.1 != [] && AllDigits(m.value.1)
  {
    if !StartsWith(path, RealestateDir) then None
    else
      var afterDir := path[|RealestateDir|..];
      var cat := LeadingLetters(afterDir);
      var afterCat := afterDir[|cat|..];
      if cat == [] || !StartsWith(afterCat, AdQuery) then None
      else
        var code := afterCat[|AdQuery|..];
        if code == [] || !AllDigits(code) then None else Some((cat, code))
  }

  /** `REALESTATE_PATTERN.match(href)`: the captured `cat` and `finncode`, or None. */
  function MatchListing(href: string): (m: Option<(string, string)>)
    ensures m.Some? ==> m.value.0 != [] && AllLetters(m.value.0) && m.value.1 != [] && AllDigits(m.value.1)
    ensures m.Some? ==> StartsWith(href, RealestateDir) || StartsWith(href, FinnOrigin + RealestateDir)
  {
    if StartsWith(href, FinnOrigin) then MatchPath(href[|FinnOrigin|..]) else MatchPath(href)
  }

  /** The hrefs the pattern describes, with the category and code it captures: an optional
      origin, `/realestate/`, one or more ASCII letters, `/ad.html?finnkode=`, one or more
      digits, and nothing after. */
  predicate IsListingHref(href: string, cat: string, code: string) {
    && cat != [] && AllLetters(cat)
    && code != [] && AllDigits(code)
    && (href == ListingPath(cat, code) || href == FinnOrigin + ListingPath(cat, code))
  }

  /** The path of the listing with this category and finn code. */
  function ListingPath(cat: string, code: string): string {
    RealestateDir + (cat + (AdQuery + code))
  }

  /** A match is a listing href with the captured category and code. */
  lemma {:induction false} MatchListingSound(href: string, cat: string, code: string)
    requires MatchListing(href) == Some((cat, code))
    ensures IsListingHref(href, cat, code)
  {
    if StartsWith(href, FinnOrigin) {
      var path := href[|FinnOrigin|..];
      assert MatchPath(path) == Some((cat, code));
      MatchPathSound(path, cat, code);
      assert href == FinnOrigin + path;
    } else {
      assert MatchPath(href) == Some((cat, code));
      MatchPathSound(href, cat, code);
    }
  }

  /** A matched path is the directory, the category, the query and the code, in order. */
  lemma {:induction false} MatchPathSound(path: string, cat: string, code: string)
    requires MatchPath(path) == Some((cat, code))
    ensures cat != [] && AllLetters(cat) && code != [] && AllDigits(code)
    ensures path == ListingPath(cat, code)
  {
    var afterDir := path[|RealestateDir|..];
    var afterCat := afterDir[|cat|..];
    assert afterCat == AdQuery + code;
    assert afterDir == cat + afterCat;
    assert path == RealestateDir + afterDir;
  }

  /** Every listing href is matched, with its own category and code: the letters stop at
      the `/` after the category, and a path without the origin cannot start with it. */
  lemma {:induction false} MatchListingComplete(href: string, cat: string, code: string)
    requires IsListingHref(href, cat, code)
    ensures MatchListing(href) == Some((cat, code))
  {
    var path := ListingPath(cat, code);
    MatchPathComplete(cat, code);
    if href == path {
      assert href[0] != FinnOrigin[0];
      assert !StartsWith(href, FinnOrigin);
    } else {
      assert href == FinnOrigin + path;
      assert StartsWith(href, FinnOrigin);
      assert href[|FinnOrigin|..] == path;
    }
  }

  /** The path of a listing is matched with its own category and code. */
  lemma {:induction false} MatchPathComplete(cat: string, code: string)
    requires cat != [] && AllLetters(cat) && code != [] && AllDigits(code)
    ensures MatchPath(ListingPath(cat, code)) == Some((cat, code))
  {
    var afterCat := AdQuery + code;
    var afterDir := cat + afterCat;
    var path := RealestateDir + afterDir;
    assert path[..|RealestateDir|] == RealestateDir;
    assert path[|RealestateDir|..] == afterDir;
    LettersStopAt(cat, afterCat);
    assert afterDir[|cat|..] == afterCat;
    assert afterCat[..|AdQuery|] == AdQuery;
    assert afterCat[|AdQuery|..] == code;
  }

  /** A greedy letter run over letters followed by a non-letter takes exactly the letters. */
  lemma {:induction false} LettersStopAt(cat: string, rest: string)
    requires AllLetters(cat) && rest != [] && !IsAsciiLetter(rest[0])
    ensures LeadingLetters(cat + rest) == cat
  {
    if cat != [] {
      assert (cat + rest)[1..] == cat[1..] + rest;
      LettersStopAt(cat[1..], rest);
      assert cat == [cat[0]] + cat[1..];
    }
  }

  /** The record `_find_realestate_meta` emits for one href, if the href is a listing: the
      href behind the origin (so an href that already has the origin gets it twice), and the
      two captured groups. */
  function MetaOf(href: string): Option<RealestateMetadata> {
    match MatchListing(href)
    case Some((cat, code)) => Some(RealestateMetadata(FinnOrigin + href, cat, code))
    case None => None
  }

  /** A record is emitted exactly for a listing href; its url is the href behind the origin,
      and its category and finn code are what the href holds. */
  lemma {:induction false} MetaOfShape(href: string)
    ensures MetaOf(href).Some? <==> MatchListing(href).Some?
    ensures MetaOf(href).Some? ==>
      && MetaOf(href).value.url == FinnOrigin + href
      && IsListingHref(href, MetaOf(href).value.category, MetaOf(href).value.finnId)
  {
    var m := MatchListing(href);
    if m.Some? {
      MatchListingSound(href, m.value.0, m.value.1);
    }
  }

  /** The records the hrefs of a page give, in page order, the non-listings skipped. */
  function ListingsOf(hrefs: seq<string>): (meta: seq<RealestateMetadata>)
    ensures |meta| <= |hrefs|
  {
    if hrefs == [] then []
    else
      var last := MetaOf(hrefs[|hrefs| - 1]);
      ListingsOf(hrefs[..|hrefs| - 1]) + if last.Some? then [last.value] else []
  }

  /** Every record comes from a listing href of the page. */
  lemma {:induction false} ListingsOfSound(hrefs: seq<string>, m: RealestateMetadata)
    requires m in ListingsOf(hrefs)
    ensures exists i :: 0 <= i < |hrefs| && MetaOf(hrefs[i]) == Some(m)
  {
    var init := hrefs[..|hrefs| - 1];
    var last := MetaOf(hrefs[|hrefs| - 1]);
    if m in ListingsOf(init) {
      ListingsOfSound(init, m);
      var i :| 0 <= i < |init| && MetaOf(init[i]) == Some(m);
      assert init[i] == hrefs[i];
    } else {
      assert MetaOf(hrefs[|hrefs| - 1]) == Some(m);
    }
  }

  /** No listing link is lost: every href that is a listing gives its record. */
  lemma {:induction false} ListingsOfComplete(hrefs: seq<string>, i: nat)
    requires i < |hrefs| && MetaOf(hrefs[i]).Some?
    ensures MetaOf(hrefs[i]).value in ListingsOf(hrefs)
  {
    var init := hrefs[..|hrefs| - 1];
    if i < |hrefs| - 1 {
      assert init[i] == hrefs[i];
      ListingsOfComplete(init, i);
    }
  }

  /** `_find_realestate_meta`, over the `href` of every anchor on the page in DOM order. */
  method FindRealestateMeta(hrefs: seq<string>) returns (meta: seq<RealestateMetadata>)
    ensures meta == ListingsOf(hrefs)
  {
    meta := [];
    for i := 0 to |hrefs|
      invariant meta == ListingsOf(hrefs[..i])
    {
      var href := hrefs[i];
      assert hrefs[..i + 1][..i] == hrefs[..i];
      match MatchListing(href)
      case Some((cat, code)) =>
        meta := meta + [RealestateMetadata(FinnOrigin + href, cat, code)];
      case None =>
    }
    assert hrefs[..|hrefs|] == hrefs;
  }

  // ---- Pagination ----

  /** Why reading the pager failed. */
  datatype PagerError = NoPageLinks  // `max()` of an empty list raises ValueError

  /** The largest number of a non-empty list. */
  function Max(xs: seq<int>): (m: int)
    requires xs != []
    ensures m in xs
    ensures forall i :: 0 <= i < |xs| ==> xs[i] <= m
  {
    if |xs| == 1 then xs[0]
    else
      var rest := Max(xs[1..]);
      assert forall i :: 1 <= i < |xs| ==> xs[i] == xs[1..][i - 1];
      if xs[0] >= rest then xs[0] else rest
  }

  /** `_has_more_pages` on the numbers already read from the page: the current page and
      every "Side n" link. As written it asks whether the highest listed page is at least
      the current one. */
  function HasMorePages(current: int, pages: seq<int>): (r: Result<bool, PagerError>)
    ensures pages == [] <==> r.Err?
  {
    if pages == [] then Err(NoPageLinks) else Ok(Max(pages) >= current)
  }

  /** The check says there are more pages exactly when some listed page is at least the
      current one. */
  lemma {:induction false} HasMorePagesMeaning(current: int, pages: seq<int>)
    requires pages != []
    ensures HasMorePages(current, pages).value <==> exists i :: 0 <= i < |pages| && pages[i] >= current
  {
    var m := Max(pages);
    var i :| 0 <= i < |pages| && pages[i] == m;
  }

  /** Whenever the current page is among the listed ones, the check says there are more. */
  lemma {:induction false} CurrentListedMeansMore(current: int, pages: seq<int>)
    requires current in pages
    ensures HasMorePages(current, pages) == Ok(true)
  {
    var i :| 0 <= i < |pages| && pages[i] == current;
    assert pages[i] >= current;
  }

  // ---- The crawl ----

  /** What loading one results page gives. */
  datatype ResultsPage =
    | Unreachable
      // opening the page or listing its anchors raised
    | Loaded(hrefs: seq<string>, pager: Option<(int, seq<int>)>)
      // the anchors' hrefs in DOM order, and the current page number with the "Side n"
      // numbers; no pager when reading or converting them raised

  /** `max_pages and page >= max_pages`: a cap of None or 0 never stops the crawl. */
  predicate CapReached(maxPages: Option<int>, page: nat) {
    maxPages.Some? && maxPages.value != 0 && page >= maxPages.value
  }

  /** Whether the crawl goes on after the page it just loaded: the pager was read, says
      there are more pages, and the cap is not reached. */
  predicate GoesOn(pager: Option<(int, seq<int>)>, maxPages: Option<int>, page: nat) {
    && pager.Some?
    && HasMorePages(pager.value.0, pager.value.1) == Ok(true)
    && !CapReached(maxPages, page)
  }

  /** Whether the crawl stops at page `p` once it has opened it: the page did not load
      (pages past the end of `site` do not), or it does not go on from there. */
  predicate Stops(site: seq<ResultsPage>, maxPages: Option<int>, p: nat)
    requires p >= 1
  {
    p > |site| || site[p - 1].Unreachable? || !GoesOn(site[p - 1].pager, maxPages, p)
  }

  /** The records page `p` contributes once opened: what `listings` finds among its hrefs
      if it loaded. The crawl finds them with `ListingsOf`; the lemmas below hold for any
      way of finding them. */
  function PageListings(site: seq<ResultsPage>, p: nat, listings: seq<string> -> seq<RealestateMetadata>)
    : seq<RealestateMetadata>
    requires p >= 1
  {
    if p <= |site| && site[p - 1].Loaded? then listings(site[p - 1].hrefs) else []
  }

  /** The records of pages `lo` to `hi`, in page order. */
  function Collected(site: seq<ResultsPage>, lo: nat, hi: nat, listings: seq<string> -> seq<RealestateMetadata>)
    : seq<RealestateMetadata>
    requires lo >= 1
    decreases hi + 1 - lo
  {
    if lo > hi then [] else PageListings(site, lo, listings) + Collected(site, lo + 1, hi, listings)
  }

  /** The crawl from `page` on, with `acc` collected before it: the records it ends with and
      the number of the last page it opened. Page `n` of the site is `site[n - 1]`; each
      page's records are added before the decision to stop. */
  function CrawlFrom(site: seq<ResultsPage>, maxPages: Option<int>, page: nat, acc: seq<RealestateMetadata>,
                     listings: seq<string> -> seq<RealestateMetadata>)
    : (r: (seq<RealestateMetadata>, nat))
    requires page >= 1
    ensures page <= r.1 && acc <= r.0
    decreases |site| + 1 - page
  {
    var collected := acc + PageListings(site, page, listings);
    if Stops(site, maxPages, page) then (collected, page)
    else CrawlFrom(site, maxPages, page + 1, collected, listings)
  }

  /** The crawl keeps every record collected before it, then every record of every page
      it opened, the last one included, in page order. */
  lemma {:induction false} CrawlCollects(site: seq<ResultsPage>, maxPages: Option<int>, page: nat, acc: seq<RealestateMetadata>,
                     listings: seq<string> -> seq<RealestateMetadata>)
    requires page >= 1
    ensures var (meta, last) := CrawlFrom(site, maxPages, page, acc, listings);
      page <= last && meta == acc + Collected(site, page, last, listings)
    decreases |site| + 1 - page
  {
    var collected := acc + PageListings(site, page, listings);
    CrawlStep(site, maxPages, page, acc, listings);
    if Stops(site, maxPages, page) {
      assert Collected(site, page + 1, page, listings) == [];
    } else {
      CrawlCollects(site, maxPages, page + 1, collected, listings);
      var last := CrawlFrom(site, maxPages, page + 1, collected, listings).1;
      var here, rest := PageListings(site, page, listings), Collected(site, page + 1, last, listings);
      assert Collected(site, page, last, listings) == here + rest;
      ConcatAssoc(acc, here, rest);
    }
  }

  /** The crawl opens the pages from `page` on one after the other: it goes on past each
      page before the last one, and stops at the last one. */
  lemma {:induction false} CrawlStopsAtLast(site: seq<ResultsPage>, maxPages: Option<int>, page: nat, acc: seq<RealestateMetadata>,
                     listings: seq<string> -> seq<RealestateMetadata>)
    requires page >= 1
    ensures var last := CrawlFrom(site, maxPages, page, acc, listings).1;
      && page <= last
      && (forall p :: page <= p < last ==> !Stops(site, maxPages, p))
      && Stops(site, maxPages, last)
    decreases |site| + 1 - page
  {
    CrawlStep(site, maxPages, page, acc, listings);
    if !Stops(site, maxPages, page) {
      CrawlStopsAtLast(site, maxPages, page + 1, acc + PageListings(site, page, listings), listings);
    }
  }

  lemma ConcatAssoc<T>(a: seq<T>, b: seq<T>, c: seq<T>)
    ensures (a + b) + c == a + (b + c)
  {
  }

  /** With a positive cap the crawl opens no page past it. */
  lemma {:induction false} CrawlRespectsCap(site: seq<ResultsPage>, cap: int, page: nat, acc: seq<RealestateMetadata>,
                     listings: seq<string> -> seq<RealestateMetadata>)
    requires 1 <= page <= cap
    ensures CrawlFrom(site, Some(cap), page, acc, listings).1 <= cap
    decreases |site| + 1 - page
  {
    if !Stops(site, Some(cap), page) {
      CrawlRespectsCap(site, cap, page + 1, acc + PageListings(site, page, listings), listings);
    }
  }

  /** A cap of 0 is no cap at all. */
  lemma {:induction false} ZeroCapIsNoCap(site: seq<ResultsPage>, page: nat, acc: seq<RealestateMetadata>,
                     listings: seq<string> -> seq<RealestateMetadata>)
    requires page >= 1
    ensures CrawlFrom(site, Some(0), page, acc, listings) == CrawlFrom(site, None, page, acc, listings)
    decreases |site| + 1 - page
  {
    assert Stops(site, Some(0), page) == Stops(site, None, page);
    if !Stops(site, None, page) {
      ZeroCapIsNoCap(site, page + 1, acc + PageListings(site, page, listings), listings);
    }
  }

  /** One step of the crawl: the page's records are added, then it stops there or goes on. */
  lemma {:induction false} CrawlStep(site: seq<ResultsPage>, maxPages: Option<int>, page: nat, acc: seq<RealestateMetadata>,
                     listings: seq<string> -> seq<RealestateMetadata>)
    requires page >= 1
    ensures CrawlFrom(site, maxPages, page, acc, listings)
         == if Stops(site, maxPages, page) then (acc + PageListings(site, page, listings), page)
            else CrawlFrom(site, maxPages, page + 1, acc + PageListings(site, page, listings), listings)
  {
  }

  /** The URL of each page of a search. */
  function PageUrl(filters: Filters, urlencode: Filters -> string): nat -> string {
    (page: nat) => GenerateBaseUrl(PageFilters(filters, page), urlencode)
  }

  /** The URLs of pages 1 to `n`, in order, each page's given by `url`. */
  function PageUrls(n: nat, url: nat -> string): (urls: seq<string>)
    ensures |urls| == n
  {
    if n == 0 then [] else PageUrls(n - 1, url) + [url(n)]
  }

  /** The `k`-th URL of the list is the URL of page `k + 1`. */
  lemma {:induction false} PageUrlsIndex(n: nat, url: nat -> string, k: nat)
    requires k < n
    ensures PageUrls(n, url)[k] == url(k + 1)
  {
    if k < n - 1 {
      PageUrlsIndex(n - 1, url, k);
    }
  }

  /** The `k`-th URL of a crawl is the base URL with the caller's filters and `page` set to
      `k + 1`. */
  lemma {:induction false} PageUrlsAt(filters: Filters, n: nat, urlencode: Filters -> string, k: nat)
    requires k < n
    ensures PageUrls(n, PageUrl(filters, urlencode))[k]
         == FinnBaseUrl + "&" + urlencode(PageFilters(filters, k + 1))
  {
    PageUrlsIndex(n, PageUrl(filters, urlencode), k);
    PageUrlCarriesFilters(filters, k + 1, urlencode);
  }

  /** One pass of the `while True` body of `scrape` once the page's URL is built: nothing is
      collected from a page that did not load; otherwise its listings are taken before the
      pager is checked, and the crawl stops on the last page or at the cap. */
  method VisitPage(site: seq<ResultsPage>, maxPages: Option<int>, page: nat)
    returns (pageMeta: seq<RealestateMetadata>, stop: bool)
    requires page >= 1
    ensures pageMeta == PageListings(site, page, ListingsOf)
    ensures stop == Stops(site, maxPages, page)
  {
    if page > |site| || site[page - 1].Unreachable? {
      return [], true;
    }
    pageMeta := FindRealestateMeta(site[page - 1].hrefs);
    var pager := site[page - 1].pager;
    if pager.None? {
      return pageMeta, true;
    }
    var more := HasMorePages(pager.value.0, pager.value.1);
    if more.Err? || !more.value {
      return pageMeta, true;
    }
    stop := maxPages.Some? && maxPages.value != 0 && page >= maxPages.value;
  }

  /** The `while True` loop of `scrape`: page by page, a copy of the filters with the page
      number, the page's URL, its listings added before the pager is checked, and a stop on
      the first failure, on the last page, or at the cap. It returns the records and the
      URL of every page it opened. */
  method Crawl(filters: Filters, maxPages: Option<int>, site: seq<ResultsPage>, urlencode: Filters -> string)
    returns (meta: seq<RealestateMetadata>, urls: seq<string>)
    ensures (meta, |urls|) == CrawlFrom(site, maxPages, 1, [], ListingsOf)
    ensures urls == PageUrls(|urls|, PageUrl(filters, urlencode))
  {
    var page: nat := 1;
    meta := [];
    urls := [];
    ghost var crawl := CrawlFrom(site, maxPages, 1, [], ListingsOf);
    while true
      invariant page >= 1 && |urls| == page - 1
      invariant urls == PageUrls(|urls|, PageUrl(filters, urlencode))
      invariant CrawlFrom(site, maxPages, page, meta, ListingsOf) == crawl
      decreases |site| + 1 - page
    {
      var filtersV2 := PageFilters(filters, page);
      var url := GenerateBaseUrl(filtersV2, urlencode);
      assert url == PageUrl(filters, urlencode)(page);
      urls := urls + [url];
      var pageMeta, stop := VisitPage(site, maxPages, page);
      CrawlStep(site, maxPages, page, meta, ListingsOf);
      meta := meta + pageMeta;
      if stop {
        break;
      }
      page := page + 1;
    }
  }

  // ---- Dropping repeated listings ----

  /** The finn codes of some records. */
  function Ids(ms: seq<RealestateMetadata>): set<string> {
    set m | m in ms :: m.finnId
  }

  /** One record per finn code, the first one of each: what `set` keeps of records that
      compare equal. It has the same finn codes as the input. */
  function FirstOccurrences(metas: seq<RealestateMetadata>): (u: seq<RealestateMetadata>)
    ensures |u| <= |metas|
    ensures Ids(u) == Ids(metas)
  {
    if metas == [] then []
    else
      var init, last := metas[..|metas| - 1], metas[|metas| - 1];
      var u := FirstOccurrences(init);
      IdsSnoc(init, last);
      assert metas == init + [last];
      if last.finnId in Ids(u) then u
      else
        IdsSnoc(u, last);
        u + [last]
  }

  /** The records kept are records of the input. */
  lemma {:induction false} FirstOccurrencesFromInput(metas: seq<RealestateMetadata>)
    ensures forall m :: m in FirstOccurrences(metas) ==> m in metas
  {
    if metas != [] {
      var init, last := metas[..|metas| - 1], metas[|metas| - 1];
      FirstOccurrencesFromInput(init);
      assert metas == init + [last];
      var u := FirstOccurrences(init);
      assert FirstOccurrences(metas) == u || FirstOccurrences(metas) == u + [last];
    }
  }

  /** No two of the records are the same listing. */
  predicate NoRepeats(u: seq<RealestateMetadata>) {
    forall i, j :: 0 <= i < j < |u| ==> !SameListing(u[i], u[j])
  }

  /** No two records kept are the same listing. */
  lemma {:induction false} FirstOccurrencesUnique(metas: seq<RealestateMetadata>)
    ensures NoRepeats(FirstOccurrences(metas))
  {
    if metas != [] {
      var init, last := metas[..|metas| - 1], metas[|metas| - 1];
      var u := FirstOccurrences(init);
      FirstOccurrencesUnique(init);
      assert metas == init + [last];
      if last.finnId !in Ids(u) {
        var u' := u + [last];
        assert FirstOccurrences(metas) == u';
        IdsSnoc(u, last);
        forall i, j | 0 <= i < j < |u'|
          ensures !SameListing(u'[i], u'[j])
        {
          assert u'[i] == u[i];
          if j < |u| {
            assert u'[j] == u[j];
          } else {
            assert u'[j] == last;
            assert u[i].finnId in Ids(u);
          }
        }
        assert NoRepeats(u');
      } else {
        assert FirstOccurrences(metas) == u;
      }
    }
  }

  /** Adding a record adds its finn code. */
  lemma {:induction false} IdsSnoc(ms: seq<RealestateMetadata>, m: RealestateMetadata)
    ensures Ids(ms + [m]) == Ids(ms) + {m.finnId}
    ensures forall k :: 0 <= k < |ms| ==> ms[k].finnId in Ids(ms)
  {
    assert forall x :: x in ms + [m] <==> x in ms || x == m;
  }

  /** `list(set(property_meta))`, with the order of first appearance. */
  method Dedup(metas: seq<RealestateMetadata>) returns (unique: seq<RealestateMetadata>)
    ensures unique == FirstOccurrences(metas)
  {
    unique := [];
    var seen: set<string> := {};
    for i := 0 to |metas|
      invariant unique == FirstOccurrences(metas[..i])
      invariant seen == Ids(unique)
    {
      assert metas[..i + 1] == metas[..i] + [metas[i]];
      var id := metas[i].finnId;
      if id !in seen {
        IdsSnoc(unique, metas[i]);
        unique := unique + [metas[i]];
        seen := seen + {id};
      }
    }
    assert metas[..|metas|] == metas;
  }

  // ---- Parsing the listings ----

  /** What parsing one listing gives: its detail page is looked up by its url. */
  function Outcome<G>(pages: string -> Option<PageTexts>, neighbourhoods: Option<FeatureCollection<G>>,
                      quote: string -> string, lookup: string -> GeoResponse, contains: (G, real, real) -> Option<bool>)
    : RealestateMetadata -> Result<Property, ParseError>
  {
    (m: RealestateMetadata) => PageOutcome(m, pages(m.url), neighbourhoods, quote, lookup, contains)
  }

  /** The records the parse loop keeps: each listing's record, in order, the failures
      skipped. */
  function ParsedOf(metas: seq<RealestateMetadata>, outcome: RealestateMetadata -> Result<Property, ParseError>)
    : (ps: seq<Property>)
    ensures |ps| <= |metas|
    ensures forall p :: p in ps ==> exists k :: 0 <= k < |metas| && outcome(metas[k]) == Ok(p)
  {
    if metas == [] then []
    else
      var init, m := metas[..|metas| - 1], metas[|metas| - 1];
      assert forall k :: 0 <= k < |init| ==> init[k] == metas[k];
      ParsedOf(init, outcome) + if outcome(m).Ok? then [outcome(m).value] else []
  }

  /** When every listing parses, the k-th record is the k-th listing's: none is lost and
      the listing order is kept. */
  lemma {:induction false} ParsedOfAllSucceed(metas: seq<RealestateMetadata>, outcome: RealestateMetadata -> Result<Property, ParseError>)
    requires forall k :: 0 <= k < |metas| ==> outcome(metas[k]).Ok?
    ensures |ParsedOf(metas, outcome)| == |metas|
    ensures forall k :: 0 <= k < |metas| ==> ParsedOf(metas, outcome)[k] == outcome(metas[k]).value
  {
    if metas != [] {
      var init := metas[..|metas| - 1];
      assert forall k :: 0 <= k < |init| ==> init[k] == metas[k];
      ParsedOfAllSucceed(init, outcome);
      var ps, before := ParsedOf(metas, outcome), ParsedOf(init, outcome);
      assert ps == before + [outcome(metas[|metas| - 1]).value];
      forall k | 0 <= k < |metas| ensures ps[k] == outcome(metas[k]).value {
        if k < |init| {
          assert ps[k] == before[k];
        }
      }
    }
  }

  /** Every listing that parses gives its record: a success is never dropped. */
  lemma {:induction false} ParsedOfComplete(metas: seq<RealestateMetadata>, outcome: RealestateMetadata -> Result<Property, ParseError>, k: nat)
    requires k < |metas| && outcome(metas[k]).Ok?
    ensures outcome(metas[k]).value in ParsedOf(metas, outcome)
  {
    var init := metas[..|metas| - 1];
    if k < |metas| - 1 {
      assert init[k] == metas[k];
      ParsedOfComplete(init, outcome, k);
    }
  }

  /** The `for property in properties` loop: parse each listing, keep the successes. */
  method ParseAll<G>(metas: seq<RealestateMetadata>, pages: string -> Option<PageTexts>,
                     neighbourhoods: Option<FeatureCollection<G>>, quote: string -> string,
                     lookup: string -> GeoResponse, contains: (G, real, real) -> Option<bool>)
    returns (parsed: seq<Property>)
    ensures parsed == ParsedOf(metas, Outcome(pages, neighbourhoods, quote, lookup, contains))
  {
    parsed := [];
    for i := 0 to |metas|
      invariant parsed == ParsedOf(metas[..i], Outcome(pages, neighbourhoods, quote, lookup, contains))
    {
      assert metas[..i + 1][..i] == metas[..i];
      var r := ParsePropertyPage(metas[i], pages(metas[i].url), neighbourhoods, quote, lookup, contains);
      assert r == Outcome(pages, neighbourhoods, quote, lookup, contains)(metas[i]);
      if r.Ok? {
        parsed := parsed + [r.value];
      }
    }
    assert metas[..|metas|] == metas;
  }

  /** `scrape` up to the export: crawl the result pages, drop repeated listings, parse each
      remaining one, and build the table `properties_to_csv` writes. */
  method Scrape<G>(filters: Filters, maxPages: Option<int>, site: seq<ResultsPage>, urlencode: Filters -> string,
                   pages: string -> Option<PageTexts>, neighbourhoods: Option<FeatureCollection<G>>,
                   quote: string -> string, lookup: string -> GeoResponse, contains: (G, real, real) -> Option<bool>)
    returns (parsed: seq<Property>, table: Frame)
    ensures parsed == ParsedOf(FirstOccurrences(CrawlFrom(site, maxPages, 1, [], ListingsOf).0), Outcome(pages, neighbourhoods, quote, lookup, contains))
    ensures table.columns == ExportColOrder && Shows(table, parsed)
  {
    var meta, _ := Crawl(filters, maxPages, site, urlencode);
    var properties := Dedup(meta);
    parsed := ParseAll(properties, pages, neighbourhoods, quote, lookup, contains);
    table := PropertiesToDataFrame(parsed);
  }
}
