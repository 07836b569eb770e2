/** The parsed HTML the scraper queries, reduced to the handful of elements
    it looks at, and the site as a finite map from URL to rendered page. */
module Document {
  import opened Wrappers

  type Url = string

  /** One `div.innerproductlist` tile of a listing page: its
      `data-productname` attribute and the `href` of its
      `a.productlist-imgholder` link, each absent when the markup lacks it. */
  datatype Entry = Entry(productName: Option<string>, imageLink: Option<Url>)

  /** An `<a>` inside the navigation menu: its `.string` (absent unless
      the link has exactly one child that carries a single string) and its
      `href` attribute. */
  datatype NavLink = NavLink(text: Option<string>, href: Option<Url>)

  /** The `nav#menubar101` region: its whole text and its links in
      document order. */
  datatype Nav = Nav(text: string, links: seq<NavLink>)

  /** One `<tr>` of the specification table: the text of each `<td>`. */
  datatype SpecRow = SpecRow(cells: seq<string>)

  /** Everything the scraper reads from a rendered page. Any page may be
      asked for any element; absence is part of the value.
      - `nav`: the navigation menu, on the home page
      - `entries`: listing tiles in document order
      - `next`: the `href` of `<link rel="next">`
      - `price`: the raw text of `span.product-price-amount`
      - `stockMarker`: whether `span.stock-green` is present
      - `specRows`: the rows of `div#pdetailTableSpecs > table > tbody`,
        absent when any of the three containers is missing */
  datatype Page = Page(
    nav: Option<Nav>,
    entries: seq<Entry>,
    next: Option<Url>,
    price: Option<string>,
    stockMarker: bool,
    specRows: Option<seq<SpecRow>>)

  /** The pages a browser would render, by URL. */
  type Site = map<Url, Page>

  /** The exceptions the scraper can raise while searching for one product. */
  datatype Fault =
    | FetchFailed(url: Url)                 // the browser could not load the page
    | MissingProductName(entryIndex: nat)   // KeyError on `data-productname`
    | MissingProductLink(entryIndex: nat)   // no `a.productlist-imgholder[href]`
    | MissingSpecsTable                     // `find` returned None on the way to `tbody`
    | ShortSpecRow(rowIndex: nat)           // IndexError: fewer than two cells

  /** Rendering a URL: the page if the site has it, a fetch failure
      otherwise. */
  function Fetch(site: Site, url: Url): (r: Result<Page, Fault>)
    ensures r.Success? <==> url in site
    ensures r.Success? ==> r.value == site[url]
    ensures r.Failure? ==> r.error == FetchFailed(url)
  {
    if url in site then Success(site[url]) else Failure(FetchFailed(url))
  }
}
