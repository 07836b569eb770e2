/** `scrape_wollplatz`: find the brand in the home page's menu, then walk
    the brand's listing pages along their `rel=next` links until the
    product turns up or the links run out. */
module Walker {
  import opened Wrappers
  import opened Text
  import opened Document
  import opened Extract
  import opened Sink
  import opened Matcher

  /** The page every search starts from. */
  const HomeUrl: Url := "https://www.wollplatz.de/"

  /** A menu link the brand search accepts: its text is present and
      non-empty (Python's `text and ...`), contains the brand ignoring
      case, and it has an `href`. */
  predicate NamesBrand(l: NavLink, brand: string) {
    && l.text.Some? && |l.text.value| > 0
    && Contains(Lower(l.text.value), Lower(brand))
    && l.href.Some?
  }

  /** `nav_menu.find('a', text=..., href=True)` from position `k`: the
      first accepted link in document order. */
  function FirstBrandLink(links: seq<NavLink>, brand: string, k: nat): (r: Option<Url>)
    requires k <= |links|
    ensures r.None? <==> forall i :: k <= i < |links| ==> !NamesBrand(links[i], brand)
    ensures r.Some? ==> exists i :: k <= i < |links| && NamesBrand(links[i], brand)
                                    && links[i].href == r
                                    && forall j :: k <= j < i ==> !NamesBrand(links[j], brand)
    decreases |links| - k
  {
    if k == |links| then None
    else if NamesBrand(links[k], brand) then links[k].href
    else FirstBrandLink(links, brand, k + 1)
  }

  /** The brand gate: the menu must exist, its text must contain the brand
      ignoring case, and some link in it must name the brand. Otherwise no
      brand page is opened. */
  function BrandLink(home: Page, brand: string): (r: Option<Url>)
    ensures r.Some? <==>
      && home.nav.Some?
      && Contains(Lower(home.nav.value.text), Lower(brand))
      && exists i :: 0 <= i < |home.nav.value.links| && NamesBrand(home.nav.value.links[i], brand)
    ensures r.Some? ==> r == FirstBrandLink(home.nav.value.links, brand, 0)
  {
    match home.nav
    case None => None
    case Some(nav) =>
      if Contains(Lower(nav.text), Lower(brand)) then FirstBrandLink(nav.links, brand, 0) else None
  }

  /** The listing pages reachable from `url` along `rel=next` links, at
      most `fuel` of them. The chain stops after a page the site lacks or
      a page without a next link. */
  function Chain(site: Site, url: Url, fuel: nat): (c: seq<Url>)
    ensures |c| <= fuel
    ensures fuel > 0 ==> |c| > 0 && c[0] == url
    ensures 0 < |c| < fuel ==> !(c[|c| - 1] in site && site[c[|c| - 1]].next.Some?)
    decreases fuel
  {
    if fuel == 0 then []
    else if url in site && site[url].next.Some? then [url] + Chain(site, site[url].next.value, fuel - 1)
    else [url]
  }

  /** Each page of the chain links to the one after it. */
  lemma {:induction false} ChainLinks(site: Site, url: Url, fuel: nat, i: nat)
    requires i + 1 < |Chain(site, url, fuel)|
    ensures var c := Chain(site, url, fuel);
            c[i] in site && site[c[i]].next == Some(c[i + 1])
    decreases fuel
  {
    if i > 0 {
      ChainLinks(site, site[url].next.value, fuel - 1, i - 1);
    }
  }

  /** A listing page the walk moves past: it exists and holds no match
      (and nothing that raises). */
  predicate Passes(site: Site, url: Url, target: string) {
    url in site && FindEntry(site[url].entries, target) == Success(Miss)
  }

  predicate AllPass(site: Site, c: seq<Url>, target: string) {
    forall i :: 0 <= i < |c| ==> Passes(site, c[i], target)
  }

  /** The chain ends because its last page has no next link. */
  predicate EndsNaturally(site: Site, c: seq<Url>) {
    |c| > 0 && c[|c| - 1] in site && site[c[|c| - 1]].next.None?
  }

  predicate IsPrefix(p: seq<Url>, c: seq<Url>) {
    |p| <= |c| && c[..|p|] == p
  }

  /** How a search ends.
      - `Found`: a record was appended
      - `NotFound`: every page was searched; the "not found" line is logged
      - `Failed`: an exception propagated out of the search
      - `OutOfFuel`: the walk was cut off by the fuel bound
      - `BrandMissing`: the brand gate closed; nothing was searched */
  datatype Status = Found | NotFound | Failed(fault: Fault) | OutOfFuel | BrandMissing

  /** The end of a walk over listing pages: the status, the sink, the
      listing pages fetched in order and the detail page fetched, if any. */
  datatype WalkOutcome = WalkOutcome(status: Status, sink: Sink, listing: seq<Url>, detail: seq<Url>)

  /** The walk from listing page `url`: fetch it, scan it, and on a plain
      miss follow its next link. At most one record is appended, and only
      when the walk ends `Found`. */
  function Walk(site: Site, url: Url, target: string, sink: Sink, fuel: nat): (o: WalkOutcome)
    ensures !o.status.BrandMissing?
    ensures !o.status.Found? ==> o.sink == sink
    ensures |o.detail| <= 1
    ensures o.status.NotFound? || o.status.OutOfFuel? ==> o.detail == []
    decreases fuel
  {
    if fuel == 0 then WalkOutcome(OutOfFuel, sink, [], [])
    else
      match Fetch(site, url)
      case Failure(e) => WalkOutcome(Failed(e), sink, [url], [])
      case Success(page) =>
        var p := FindProductOnPage(site, page, target, sink);
        match p.result
        case Recorded(_) => WalkOutcome(Found, p.sink, [url], p.detailFetches)
        case Raised(e) => WalkOutcome(Failed(e), sink, [url], p.detailFetches)
        case NotOnPage =>
          match page.next
          case None => WalkOutcome(NotFound, sink, [url], [])
          case Some(n) =>
            var rest := Walk(site, n, target, sink, fuel - 1);
            rest.(listing := [url] + rest.listing)
  }

  /** One step of the walk, seen from the chain: a missing page or a page
      that does not pass ends the walk there; a passing page without a
      next link ends it `NotFound`; otherwise the walk goes on from the
      next link. */
  lemma WalkUnfold(site: Site, url: Url, target: string, sink: Sink, fuel: nat)
    requires fuel > 0
    ensures var o := Walk(site, url, target, sink, fuel);
            && (!Passes(site, url, target) ==>
                  && o.listing == [url] && (o.status.Found? || o.status.Failed?))
            && (Passes(site, url, target) && site[url].next.None? ==>
                  o == WalkOutcome(NotFound, sink, [url], []))
            && (Passes(site, url, target) && site[url].next.Some? ==>
                  var rest := Walk(site, site[url].next.value, target, sink, fuel - 1);
                  o == rest.(listing := [url] + rest.listing))
  {
  }

  /** The walk fetches listing pages in chain order, moves past a page
      only when it holds no match, and never fetches a page beyond the
      chain. */
  lemma {:induction false} WalkFollowsChain(site: Site, url: Url, target: string, sink: Sink, fuel: nat)
    ensures var o := Walk(site, url, target, sink, fuel);
            && IsPrefix(o.listing, Chain(site, url, fuel))
            && (forall i :: 0 <= i < |o.listing| - 1 ==> Passes(site, o.listing[i], target))
    decreases fuel
  {
    if fuel > 0 {
      WalkUnfold(site, url, target, sink, fuel);
      if Passes(site, url, target) && site[url].next.Some? {
        var n := site[url].next.value;
        WalkFollowsChain(site, n, target, sink, fuel - 1);
        var rest := Walk(site, n, target, sink, fuel - 1);
        var o := Walk(site, url, target, sink, fuel);
        var c' := Chain(site, n, fuel - 1);
        assert Chain(site, url, fuel) == [url] + c';
        assert ([url] + c')[..|o.listing|] == [url] + c'[..|rest.listing|];
        forall i | 0 <= i < |o.listing| - 1
          ensures Passes(site, o.listing[i], target)
        {
          if i > 0 {
            assert o.listing[i] == rest.listing[i - 1];
          }
        }
      }
    }
  }

  /** The walk ends `NotFound` exactly when every page of the chain was
      searched without a match and the last one has no next link; it ends
      `OutOfFuel` exactly when the fuel ran out first. In both cases it
      fetched the whole chain. */
  lemma {:induction false} WalkExhausts(site: Site, url: Url, target: string, sink: Sink, fuel: nat)
    ensures var o := Walk(site, url, target, sink, fuel);
            var c := Chain(site, url, fuel);
            && (o.status.NotFound? <==> AllPass(site, c, target) && EndsNaturally(site, c))
            && (o.status.OutOfFuel? <==> AllPass(site, c, target) && !EndsNaturally(site, c))
            && (o.status.NotFound? || o.status.OutOfFuel? ==> o.listing == c)
    decreases fuel
  {
    if fuel > 0 {
      WalkUnfold(site, url, target, sink, fuel);
      var c := Chain(site, url, fuel);
      if !Passes(site, url, target) {
        assert !Passes(site, c[0], target);
      } else if site[url].next.None? {
        assert c == [url];
      } else {
        WalkExhausts(site, site[url].next.value, target, sink, fuel - 1);
        ChainCons(site, url, target, fuel);
      }
    }
  }

  /** Passing and ending naturally, for a chain whose first page links on. */
  lemma ChainCons(site: Site, url: Url, target: string, fuel: nat)
    requires fuel > 0 && url in site && site[url].next.Some?
    requires Passes(site, url, target)
    ensures var c := Chain(site, url, fuel);
            var c' := Chain(site, site[url].next.value, fuel - 1);
            && c == [url] + c'
            && (AllPass(site, c, target) <==> AllPass(site, c', target))
            && (EndsNaturally(site, c) <==> EndsNaturally(site, c'))
  {
    var c' := Chain(site, site[url].next.value, fuel - 1);
    AllPassCons(site, url, c', target);
    if c' != [] {
      assert ([url] + c')[|[url] + c'| - 1] == c'[|c'| - 1];
    }
  }

  /** A list of pages passes iff its first page and the rest pass. */
  lemma AllPassCons(site: Site, url: Url, rest: seq<Url>, target: string)
    ensures AllPass(site, [url] + rest, target) <==> Passes(site, url, target) && AllPass(site, rest, target)
  {
    var c := [url] + rest;
    if Passes(site, url, target) && AllPass(site, rest, target) {
      forall i | 0 <= i < |c| ensures Passes(site, c[i], target) {
        if i > 0 { assert c[i] == rest[i - 1]; }
      }
    }
    if AllPass(site, c, target) {
      assert c[0] == url;
      forall i | 0 <= i < |rest| ensures Passes(site, rest[i], target) {
        assert rest[i] == c[i + 1];
      }
    }
  }

  /** A walk that ends `Found` or `Failed` stopped at the last page it
      fetched, which did not pass; a `Found` walk appended exactly the
      record built from that page's first match. */
  lemma {:induction false} WalkStopsAtFirstHit(site: Site, url: Url, target: string, sink: Sink, fuel: nat)
    ensures var o := Walk(site, url, target, sink, fuel);
            && (o.status.Found? || o.status.Failed? ==>
                  |o.listing| > 0 && !Passes(site, o.listing[|o.listing| - 1], target))
            && (o.status.Found? ==>
                  var last := o.listing[|o.listing| - 1];
                  && last in site
                  && var p := FindProductOnPage(site, site[last], target, sink);
                  && p.result.Recorded?
                  && o.sink == Append(sink, p.result.record)
                  && o.detail == p.detailFetches)
    decreases fuel
  {
    if fuel > 0 {
      WalkUnfold(site, url, target, sink, fuel);
      if !Passes(site, url, target) {
        if Walk(site, url, target, sink, fuel).status.Found? {
          FoundHere(site, url, target, sink, fuel);
        }
      } else if site[url].next.Some? {
        var n := site[url].next.value;
        WalkStopsAtFirstHit(site, n, target, sink, fuel - 1);
        var rest := Walk(site, n, target, sink, fuel - 1);
        var o := Walk(site, url, target, sink, fuel);
        assert o.status == rest.status && o.sink == rest.sink && o.detail == rest.detail;
        if rest.status.Found? || rest.status.Failed? {
          assert o.listing[|o.listing| - 1] == rest.listing[|rest.listing| - 1];
        }
      }
    }
  }

  /** A `Failed` walk carries the fault of the last listing page it
      fetched: `FetchFailed` when that page is missing, and otherwise the
      fault the page's search raised. */
  lemma {:induction false} WalkFailedFault(site: Site, url: Url, target: string, sink: Sink, fuel: nat)
    ensures var o := Walk(site, url, target, sink, fuel);
            o.status.Failed? ==>
              && |o.listing| > 0
              && var last := o.listing[|o.listing| - 1];
              && (last !in site ==> o.status.fault == FetchFailed(last))
              && (last in site ==>
                    FindProductOnPage(site, site[last], target, sink).result == Raised(o.status.fault))
    decreases fuel
  {
    if fuel > 0 {
      WalkUnfold(site, url, target, sink, fuel);
      if Passes(site, url, target) && site[url].next.Some? {
        var n := site[url].next.value;
        WalkFailedFault(site, n, target, sink, fuel - 1);
        var rest := Walk(site, n, target, sink, fuel - 1);
        var o := Walk(site, url, target, sink, fuel);
        assert o.status == rest.status;
        if rest.status.Failed? {
          assert o.listing[|o.listing| - 1] == rest.listing[|rest.listing| - 1];
        }
      }
    }
  }

  /** A walk that ends `Found` on its first page appended the record that
      page's scan built. */
  lemma FoundHere(site: Site, url: Url, target: string, sink: Sink, fuel: nat)
    requires fuel > 0
    ensures var o := Walk(site, url, target, sink, fuel);
            o.status.Found? && !Passes(site, url, target) ==>
              && url in site
              && var p := FindProductOnPage(site, site[url], target, sink);
              && p.result.Recorded?
              && o.sink == Append(sink, p.result.record)
              && o.detail == p.detailFetches
  {
  }

  /** The number of listing pages fetched is the 1-based position, in the
      chain, of the first page the walk cannot move past. */
  lemma FetchCountIsFirstStop(site: Site, url: Url, target: string, sink: Sink, fuel: nat, i: nat)
    requires i < |Chain(site, url, fuel)|
    requires !Passes(site, Chain(site, url, fuel)[i], target)
    requires forall j :: 0 <= j < i ==> Passes(site, Chain(site, url, fuel)[j], target)
    ensures var o := Walk(site, url, target, sink, fuel);
            && o.listing == Chain(site, url, fuel)[..i + 1]
            && (o.status.Found? || o.status.Failed?)
  {
    var o := Walk(site, url, target, sink, fuel);
    var c := Chain(site, url, fuel);
    WalkFollowsChain(site, url, target, sink, fuel);
    WalkExhausts(site, url, target, sink, fuel);
    assert !AllPass(site, c, target);
    WalkStopsAtFirstHit(site, url, target, sink, fuel);
    var last := |o.listing| - 1;
    assert o.listing[last] == c[last];
    assert i <= last;
    assert forall k :: 0 <= k < last ==> Passes(site, c[k], target) by {
      forall k | 0 <= k < last ensures Passes(site, c[k], target) {
        assert c[k] == o.listing[k];
      }
    }
  }

  /** A listing page whose scan hits a tile whose detail page exists and
      has a readable specification table: the page where a record is
      appended. */
  predicate CleanHit(site: Site, url: Url, target: string) {
    && url in site
    && var scan := FindEntry(site[url].entries, target);
    && scan.Success? && scan.value.Hit?
    && scan.value.link in site
    && ExtractSpecs(site[scan.value.link]).Success?
  }

  /** The record appended for a clean hit on listing page `url`. */
  function HitRecord(site: Site, url: Url, target: string): (r: Record)
    requires CleanHit(site, url, target)
    ensures r.website == Website
  {
    var hit := FindEntry(site[url].entries, target).value;
    BuildRecord(site[hit.link], hit.name, hit.link).value
  }

  /** A walk whose first page holds a clean hit ends there `Found`,
      having fetched that hit's detail page and appended its record. */
  lemma CleanHitHere(site: Site, url: Url, target: string, sink: Sink, fuel: nat)
    requires fuel > 0
    requires CleanHit(site, url, target)
    ensures Walk(site, url, target, sink, fuel)
         == WalkOutcome(Found, Append(sink, HitRecord(site, url, target)), [url],
                        [FindEntry(site[url].entries, target).value.link])
  {
  }

  /** When chain page `i`, `hit`, is the first that does not pass and it
      holds a clean hit, the walk fetches the chain up to it, ends `Found`,
      fetches that hit's detail page and appends exactly its record. */
  lemma CleanHitIsFound(site: Site, url: Url, target: string, sink: Sink, fuel: nat, i: nat, hit: Url)
    requires i < |Chain(site, url, fuel)| && Chain(site, url, fuel)[i] == hit
    requires forall j :: 0 <= j < i ==> Passes(site, Chain(site, url, fuel)[j], target)
    requires CleanHit(site, hit, target)
    ensures Walk(site, url, target, sink, fuel)
            == WalkOutcome(Found, Append(sink, HitRecord(site, hit, target)), Chain(site, url, fuel)[..i + 1],
                           [FindEntry(site[hit].entries, target).value.link])
  {
    var o := Walk(site, url, target, sink, fuel);
    var p := FindProductOnPage(site, site[hit], target, sink);
    assert p.result == Recorded(HitRecord(site, hit, target));
    FetchCountIsFirstStop(site, url, target, sink, fuel, i);
    assert o.listing[|o.listing| - 1] == hit;
    WalkFailedFault(site, url, target, sink, fuel);
    WalkStopsAtFirstHit(site, url, target, sink, fuel);
  }

  /** When no page of the chain holds a match, the walk fetches the whole
      chain, appends nothing and fetches no detail page. */
  lemma NoMatchFetchesWholeChain(site: Site, url: Url, target: string, sink: Sink, fuel: nat)
    requires AllPass(site, Chain(site, url, fuel), target)
    ensures var o := Walk(site, url, target, sink, fuel);
            && o.listing == Chain(site, url, fuel)
            && (o.status.NotFound? || o.status.OutOfFuel?)
            && o.sink == sink && o.detail == []
  {
    WalkExhausts(site, url, target, sink, fuel);
  }

  /** A brand page without a match and without a next link is the whole
      chain: the walk fetches it alone and ends `NotFound`. */
  lemma LonePageNotFound(site: Site, url: Url, target: string, sink: Sink, fuel: nat)
    requires fuel > 0 && Passes(site, url, target) && site[url].next.None?
    ensures Walk(site, url, target, sink, fuel) == WalkOutcome(NotFound, sink, [url], [])
  {
    WalkExhausts(site, url, target, sink, fuel);
    assert Chain(site, url, fuel) == [url];
  }
}
