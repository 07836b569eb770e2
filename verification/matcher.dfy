/** `find_product_on_page`: scan the listing tiles of one page in document
    order, take the first whose name contains the target, fetch its detail
    page, build the record and append it. */
module Matcher {
  import opened Wrappers
  import opened Text
  import opened Document
  import opened Extract
  import opened Sink

  /** The product name the scraper records: the declared name stripped,
      then lower-cased. */
  function Normalize(declared: string): string {
    Lower(Strip(declared))
  }

  /** A tile matches when the lower-cased target occurs in its normalized
      name. The target itself is not stripped. */
  predicate EntryMatches(e: Entry, target: string) {
    e.productName.Some? && Contains(Normalize(e.productName.value), Lower(target))
  }

  /** A tile the scan passes over: it has a name and that name does not
      match. */
  predicate PassedOver(e: Entry, target: string) {
    e.productName.Some? && !EntryMatches(e, target)
  }

  /** The first match on a page: its position, the normalized name and
      the detail link. */
  datatype Scan = Hit(index: nat, name: string, link: Url) | Miss

  /** The loop over `product_holders` from position `k` on. A tile without
      a name raises before it is compared; a matching tile without an image
      link raises; the first matching tile with a link is the hit. The
      name is lowered once more before the test, as in the source. */
  function ScanFrom(entries: seq<Entry>, target: string, k: nat): Result<Scan, Fault>
    requires k <= |entries|
    decreases |entries| - k
  {
    if k == |entries| then Success(Miss)
    else
      match entries[k].productName
      case None => Failure(MissingProductName(k))
      case Some(declared) =>
        var name := Normalize(declared);
        if Contains(Lower(name), Lower(target)) then
          match entries[k].imageLink
          case None => Failure(MissingProductLink(k))
          case Some(link) => Success(Hit(k, name, link))
        else
          ScanFrom(entries, target, k + 1)
  }

  /** The scan from `k` misses iff every tile from `k` on is passed over. */
  lemma {:induction false} ScanMissIff(entries: seq<Entry>, target: string, k: nat)
    requires k <= |entries|
    ensures ScanFrom(entries, target, k) == Success(Miss)
        <==> forall j :: k <= j < |entries| ==> PassedOver(entries[j], target)
    decreases |entries| - k
  {
    if k < |entries| && entries[k].productName.Some? {
      LowerIdempotent(Strip(entries[k].productName.value));
      if !EntryMatches(entries[k], target) {
        ScanMissIff(entries, target, k + 1);
      }
    }
  }

  /** A hit of the scan from `k` is the first matching tile, with its
      normalized name and its link; every tile before it was passed over. */
  lemma {:induction false} ScanHitIsFirstMatch(entries: seq<Entry>, target: string, k: nat)
    requires k <= |entries|
    ensures var r := ScanFrom(entries, target, k);
      r.Success? && r.value.Hit? ==>
        && k <= r.value.index < |entries|
        && (forall j :: k <= j < r.value.index ==> PassedOver(entries[j], target))
        && EntryMatches(entries[r.value.index], target)
        && r.value.name == Normalize(entries[r.value.index].productName.value)
        && entries[r.value.index].imageLink == Some(r.value.link)
    decreases |entries| - k
  {
    if k < |entries| && entries[k].productName.Some? {
      LowerIdempotent(Strip(entries[k].productName.value));
      if !EntryMatches(entries[k], target) {
        assert ScanFrom(entries, target, k) == ScanFrom(entries, target, k + 1);
        ScanHitIsFirstMatch(entries, target, k + 1);
        var r := ScanFrom(entries, target, k + 1);
        if r.Success? && r.value.Hit? {
          forall j | k <= j < r.value.index
            ensures PassedOver(entries[j], target)
          {
            if j == k {
              assert PassedOver(entries[k], target);
            }
          }
        }
      }
    }
  }

  /** A failure of the scan from `k` names the first tile that is neither
      passed over nor a hit: one without a name, or a matching one without
      a link. */
  lemma {:induction false} ScanFailureIsFirstBadTile(entries: seq<Entry>, target: string, k: nat)
    requires k <= |entries|
    requires ScanFrom(entries, target, k).Failure?
    ensures var e := ScanFrom(entries, target, k).error;
      && (e.MissingProductName? || e.MissingProductLink?)
      && k <= e.entryIndex < |entries|
      && (forall j :: k <= j < e.entryIndex ==> PassedOver(entries[j], target))
      && (e.MissingProductName? ==> entries[e.entryIndex].productName.None?)
      && (e.MissingProductLink? ==>
            EntryMatches(entries[e.entryIndex], target) && entries[e.entryIndex].imageLink.None?)
    decreases |entries| - k
  {
    if entries[k].productName.Some? {
      LowerIdempotent(Strip(entries[k].productName.value));
      if !EntryMatches(entries[k], target) {
        ScanFailureIsFirstBadTile(entries, target, k + 1);
      }
    }
  }

  /** The scan of a whole page. */
  function FindEntry(entries: seq<Entry>, target: string): Result<Scan, Fault> {
    ScanFrom(entries, target, 0)
  }

  /** The record built from a detail page: the fields the extractors
      return, the two looked-up specifications and the constant site name.
      A detail page without a readable specification table raises. */
  function BuildRecord(detail: Page, name: string, link: Url): (r: Result<Record, Fault>)
    ensures r.Success? <==> ExtractSpecs(detail).Success?
    ensures r.Failure? ==> r.error == ExtractSpecs(detail).error
    ensures r.Success? ==>
      && r.value.name == name && r.value.link == link
      && r.value.price == ExtractPrice(detail)
      && r.value.availability == ExtractAvailability(detail)
      && r.value.needleSize == NeedleSize(ExtractSpecs(detail).value)
      && r.value.composition == Composition(ExtractSpecs(detail).value)
      && r.value.website == Website
  {
    match ExtractSpecs(detail)
    case Failure(e) => Failure(e)
    case Success(specs) =>
      Success(Record(name, link, ExtractPrice(detail), ExtractAvailability(detail),
                     NeedleSize(specs), Composition(specs), Website))
  }

  /** The record the source as written builds: identical to `BuildRecord`
      except that the needle size is looked up under the misspelled key. */
  function BuildRecordAsWritten(detail: Page, name: string, link: Url): (r: Result<Record, Fault>)
    ensures r.Success? <==> BuildRecord(detail, name, link).Success?
    ensures r.Failure? ==> r.error == BuildRecord(detail, name, link).error
    ensures r.Success? ==>
      r.value == BuildRecord(detail, name, link).value.(needleSize := NeedleSizeAsWritten(ExtractSpecs(detail).value))
  {
    match ExtractSpecs(detail)
    case Failure(e) => Failure(e)
    case Success(specs) =>
      Success(Record(name, link, ExtractPrice(detail), ExtractAvailability(detail),
                     NeedleSizeAsWritten(specs), Composition(specs), Website))
  }

  /** On a detail page whose table labels the needle size "Nadelstärke",
      the record as written carries no needle size and the corrected
      record carries the row's value; every other field agrees. */
  lemma RecordAsWrittenDropsNeedleSize(v: string, name: string, link: Url)
    requires NoEdgeSpace(v)
    ensures var detail := Page(None, [], None, None, false,
                               Some([SpecRow([NeedleSizeLabel, v])]));
            && BuildRecordAsWritten(detail, name, link).Success?
            && BuildRecordAsWritten(detail, name, link).value.needleSize == None
            && BuildRecord(detail, name, link).value.needleSize == Some(v)
            && BuildRecordAsWritten(detail, name, link).value
               == BuildRecord(detail, name, link).value.(needleSize := None)
  {
    NeedleSizeKeyMissesLabel(v);
  }

  /** What one page scan ends in. */
  datatype PageResult = Recorded(record: Record) | NotOnPage | Raised(fault: Fault)

  /** One call of `find_product_on_page`: the result, the sink afterwards
      and the detail page fetched, if any. */
  datatype PageOutcome = PageOutcome(result: PageResult, sink: Sink, detailFetches: seq<Url>)

  /** `find_product_on_page` on a listing page already fetched. */
  function FindProductOnPage(site: Site, page: Page, target: string, sink: Sink): (o: PageOutcome)
    ensures o.result.NotOnPage? <==> FindEntry(page.entries, target) == Success(Miss)
    ensures !o.result.Recorded? ==> o.sink == sink
    ensures o.result.Recorded? ==> o.sink == Append(sink, o.result.record)
    ensures o.result.Recorded? ==>
      FindEntry(page.entries, target).Success? && FindEntry(page.entries, target).value.Hit?
    ensures |o.detailFetches| <= 1
    ensures |o.detailFetches| == 1 <==> FindEntry(page.entries, target).Success? && FindEntry(page.entries, target).value.Hit?
    ensures |o.detailFetches| == 1 ==> o.detailFetches[0] == FindEntry(page.entries, target).value.link
    ensures FindEntry(page.entries, target).Failure? ==>
      o.result == Raised(FindEntry(page.entries, target).error)
    ensures var hit := FindEntry(page.entries, target);
      hit.Success? && hit.value.Hit? ==>
        var link := hit.value.link;
        && (link !in site ==> o.result == Raised(FetchFailed(link)))
        && (link in site && ExtractSpecs(site[link]).Failure? ==>
              o.result == Raised(ExtractSpecs(site[link]).error))
        && (link in site && ExtractSpecs(site[link]).Success? ==>
              o.result == Recorded(BuildRecord(site[link], hit.value.name, link).value))
  {
    match FindEntry(page.entries, target)
    case Failure(e) => PageOutcome(Raised(e), sink, [])
    case Success(Miss) => PageOutcome(NotOnPage, sink, [])
    case Success(Hit(_, name, link)) =>
      match Fetch(site, link)
      case Failure(e) => PageOutcome(Raised(e), sink, [link])
      case Success(detail) =>
        match BuildRecord(detail, name, link)
        case Failure(e) => PageOutcome(Raised(e), sink, [link])
        case Success(record) => PageOutcome(Recorded(record), Append(sink, record), [link])
  }

  /** The first matching tile with a link decides the page: whatever
      follows it, matching or not, is never looked at. */
  lemma FirstMatchWins(entries: seq<Entry>, target: string, i: nat)
    requires i < |entries|
    requires forall j :: 0 <= j < i ==> PassedOver(entries[j], target)
    requires EntryMatches(entries[i], target) && entries[i].imageLink.Some?
    ensures FindEntry(entries, target)
         == Success(Hit(i, Normalize(entries[i].productName.value), entries[i].imageLink.value))
  {
    ScanReaches(entries, target, i, 0);
  }

  /** From any position up to the first match, the scan ends at that
      match. */
  lemma {:induction false} ScanReaches(entries: seq<Entry>, target: string, i: nat, k: nat)
    requires k <= i < |entries|
    requires forall j :: k <= j < i ==> PassedOver(entries[j], target)
    requires EntryMatches(entries[i], target) && entries[i].imageLink.Some?
    ensures ScanFrom(entries, target, k)
         == Success(Hit(i, Normalize(entries[i].productName.value), entries[i].imageLink.value))
    decreases i - k
  {
    LowerIdempotent(Strip(entries[k].productName.value));
    if k < i {
      assert PassedOver(entries[k], target);
      ScanReaches(entries, target, i, k + 1);
    }
  }

  /** Matching ignores the letter case of the target. */
  lemma MatchIgnoresCase(e: Entry, target: string)
    ensures EntryMatches(e, target) == EntryMatches(e, Lower(target))
  {
    LowerIdempotent(target);
  }

  /** An empty target matches the first named tile. */
  lemma EmptyTargetMatchesFirst(entries: seq<Entry>)
    requires |entries| > 0 && entries[0].productName.Some? && entries[0].imageLink.Some?
    ensures FindEntry(entries, "").Success? && FindEntry(entries, "").value.Hit?
    ensures FindEntry(entries, "").value.index == 0
  {
    EmptyIsEverywhere(Normalize(entries[0].productName.value));
    FirstMatchWins(entries, "", 0);
  }
}
