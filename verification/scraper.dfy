/** `WollplatzScraper.scrape_wollplatz` written the way the source is: the
    brand page handled first, then a `while` loop over `rel=next` links
    whose `else` clause logs "not found". */
module Scraper {
  import opened Wrappers
  import opened Document
  import opened Sink
  import opened Matcher
  import opened Walker

  /** One search: how it ended, the sink afterwards, every URL fetched in
      order, and whether the "not found on any page" line was logged. */
  datatype Search = Search(status: Status, sink: Sink, fetched: seq<Url>, notFoundLogged: bool)

  /** The rest of a walk once the pages before it have been passed: nothing
      left when there is no next link, otherwise the walk from that link. */
  function Rest(site: Site, next: Option<Url>, target: string, sink: Sink, fuel: nat): WalkOutcome {
    match next
    case None => WalkOutcome(NotFound, sink, [], [])
    case Some(u) => Walk(site, u, target, sink, fuel)
  }

  /** `o` with `pages` fetched before its listing pages. */
  function After(pages: seq<Url>, o: WalkOutcome): WalkOutcome {
    o.(listing := pages + o.listing)
  }

  /** `s` reports walk `w`: same status and sink, the home page and then
      the walk's pages fetched in the same order, and "not found" logged
      exactly when the walk ended `NotFound`. */
  predicate Reports(s: Search, w: WalkOutcome) {
    && s.status == w.status
    && s.sink == w.sink
    && s.fetched == Fetched(w.listing, w.detail)
    && (s.notFoundLogged <==> w.status.NotFound?)
  }

  /** Every URL a search fetched: the home page, the listing pages, then
      the detail page if any. */
  function Fetched(listing: seq<Url>, detail: seq<Url>): seq<Url> {
    [HomeUrl] + listing + detail
  }

  lemma AfterAfter(first: seq<Url>, second: seq<Url>, o: WalkOutcome)
    ensures After(first, After(second, o)) == After(first + second, o)
  {
    assert first + (second + o.listing) == first + second + o.listing;
  }

  /** One step of the walk: a listing page that holds no match hands over
      to the rest of its chain. */
  lemma WalkStep(site: Site, url: Url, target: string, sink: Sink, fuel: nat)
    requires fuel > 0 && url in site
    requires FindProductOnPage(site, site[url], target, sink).result.NotOnPage?
    ensures Walk(site, url, target, sink, fuel)
         == After([url], Rest(site, site[url].next, target, sink, fuel - 1))
  {
  }

  /** The search for `target` under `brand`, with at most `fuel` listing
      pages fetched. The home page is always fetched first. When the brand
      gate closes nothing else is fetched and nothing is recorded;
      otherwise the search reports the walk from the brand page. */
  method ScrapeWollplatz(site: Site, sink: Sink, brand: string, target: string, fuel: nat)
    returns (s: Search)
    ensures |s.fetched| > 0 && s.fetched[0] == HomeUrl
    ensures HomeUrl !in site ==> s == Search(Failed(FetchFailed(HomeUrl)), sink, [HomeUrl], false)
    ensures HomeUrl in site && BrandLink(site[HomeUrl], brand).None? ==>
              s == Search(BrandMissing, sink, [HomeUrl], false)
    ensures HomeUrl in site && BrandLink(site[HomeUrl], brand).Some? ==>
              Reports(s, Walk(site, BrandLink(site[HomeUrl], brand).value, target, sink, fuel))
    ensures !s.status.Found? ==> s.sink == sink
    ensures s.status.Found? ==>
              && |s.sink.records| == |sink.records| + 1
              && s.sink.records[..|sink.records|] == sink.records
              && Mirrored(s.sink)
    ensures Mirrored(sink) ==> Mirrored(s.sink)
    ensures s.notFoundLogged <==>
              && HomeUrl in site && BrandLink(site[HomeUrl], brand).Some?
              && var chain := Chain(site, BrandLink(site[HomeUrl], brand).value, fuel);
              && AllPass(site, chain, target) && EndsNaturally(site, chain)
  {
    var home := Fetch(site, HomeUrl);
    if home.Failure? {
      return Search(Failed(home.error), sink, [HomeUrl], false);
    }
    var brandLink := BrandLink(home.value, brand);
    if brandLink.None? {
      return Search(BrandMissing, sink, [HomeUrl], false);
    }
    s := SearchBrandPages(site, sink, brandLink.value, target, fuel);
    WalkStopsAtFirstHit(site, brandLink.value, target, sink, fuel);
    WalkExhausts(site, brandLink.value, target, sink, fuel);
  }

  /** From the brand page on: search the brand page, and if the product is
      not there, follow the next links. */
  method SearchBrandPages(site: Site, sink: Sink, brandUrl: Url, target: string, fuel: nat)
    returns (s: Search)
    ensures Reports(s, Walk(site, brandUrl, target, sink, fuel))
  {
    if fuel == 0 {
      return Search(OutOfFuel, sink, Fetched([], []), false);
    }
    var brandPage := Fetch(site, brandUrl);
    if brandPage.Failure? {
      return Search(Failed(brandPage.error), sink, Fetched([brandUrl], []), false);
    }
    var p := FindProductOnPage(site, brandPage.value, target, sink);
    if p.result.Recorded? {
      return Search(Found, p.sink, Fetched([brandUrl], p.detailFetches), false);
    }
    if p.result.Raised? {
      return Search(Failed(p.result.fault), sink, Fetched([brandUrl], p.detailFetches), false);
    }
    WalkStep(site, brandUrl, target, sink, fuel);
    s := FollowNextLinks(site, sink, target, [brandUrl], brandPage.value.next, fuel - 1);
  }

  /** The `while next_page_link:` loop with its `else`. `listing` holds the
      pages already searched without a match; the loop fetches and
      searches each next page, breaks on a match, raises on a failure, and
      logs "not found" only when it ends because there is no next link. */
  method FollowNextLinks(site: Site, sink: Sink, target: string,
                         searched: seq<Url>, next: Option<Url>, fuel: nat)
    returns (s: Search)
    ensures Reports(s, After(searched, Rest(site, next, target, sink, fuel)))
  {
    ghost var w := After(searched, Rest(site, next, target, sink, fuel));
    var listing := searched;
    var link := next;
    var budget := fuel;
    var broke := false;
    s := Search(NotFound, sink, [], false);
    while link.Some?
      invariant w == After(listing, Rest(site, link, target, sink, budget))
      decreases budget
    {
      if budget == 0 {
        assert listing + [] == listing;
        return Search(OutOfFuel, sink, Fetched(listing, []), false);
      }
      var url := link.value;
      var page := Fetch(site, url);
      if page.Failure? {
        assert Walk(site, url, target, sink, budget) == WalkOutcome(Failed(page.error), sink, [url], []);
        return Search(Failed(page.error), sink, Fetched(listing + [url], []), false);
      }
      var q := FindProductOnPage(site, page.value, target, sink);
      if q.result.Recorded? {
        assert Walk(site, url, target, sink, budget) == WalkOutcome(Found, q.sink, [url], q.detailFetches);
        s := Search(Found, q.sink, Fetched(listing + [url], q.detailFetches), false);
        broke := true;
        break;
      }
      if q.result.Raised? {
        assert Walk(site, url, target, sink, budget)
            == WalkOutcome(Failed(q.result.fault), sink, [url], q.detailFetches);
        return Search(Failed(q.result.fault), sink, Fetched(listing + [url], q.detailFetches), false);
      }
      WalkStep(site, url, target, sink, budget);
      AfterAfter(listing, [url], Rest(site, page.value.next, target, sink, budget - 1));
      listing := listing + [url];
      link := page.value.next;
      budget := budget - 1;
    }
    if !broke {
      // the loop's `else`: reached only when its condition is false
      assert listing + [] == listing;
      s := Search(NotFound, sink, Fetched(listing, []), true);
    }
  }
}
