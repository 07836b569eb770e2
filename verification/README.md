# Wollplatz product scraper — a Dafny model

This project models the search engine of `WollplatzScraper` (woll-scrapper,
`scraper.py`): given a brand and a product name, it finds the brand in the
home page's navigation menu, walks the brand's listing pages along their
`rel=next` links, takes the first listing tile whose name contains the
product name, reads price, availability and two specification fields from
that product's detail page, and appends one record to the result list, which
is rewritten to the JSON file after every append.

HTML is replaced by a small document type (`Document.Page`) that holds just
the elements the scraper queries. The browser is replaced by a finite map
from URL to page (`Document.Site`). A URL missing from the map is a failed
fetch. The exceptions the Python code can raise become `Document.Fault`
values. The search returns them as its outcome, and no record is appended.

Modules, leaf first:

- `Wrappers` (`wrappers.dfy`): `Option` and `Result`.
- `Text` (`text.dfy`): `strip()`, `lower()` and the substring test `in`.
- `Document` (`document.dfy`): pages, site, fetch, faults.
- `Extract` (`extract.dfy`): `extract_price`, `extract_availability`,
  `extract_specs` and the two specification lookups.
- `Sink` (`sink.dfy`): `scraped_data` and `save_in_json`.
- `Matcher` (`matcher.dfy`): `find_product_on_page`.
- `Walker` (`walker.dfy`): the brand gate on the home page's menu
  (`BrandLink`), then the pagination chain and the walk over it, as
  recursive functions.
- `Scraper` (`scraper.dfy`): `scrape_wollplatz` written as the source
  writes it. It handles the brand page, then runs a `while` loop whose
  `else` logs "not found". It is proved to do exactly what the walk does.

The walk is bounded by a `fuel` parameter because the source has no limit
on pages. A search cut off by the bound ends `OutOfFuel`, which stands for
"the source would still be following links".

The model follows the code. A missing specification table is a failure
(`MissingSpecsTable`), not an empty dictionary. A request that fails is not
caught: the batch loop's handler is itself broken (see "Left out").

The one deliberate departure is the needle-size key (see "Findings"). The
source looks it up under a mis-encoded literal that can never equal the
vendor's label. The search (`Matcher.BuildRecord`, and through it
`FindProductOnPage`, `Walk` and `ScrapeWollplatz`) uses the corrected key.
`Matcher.BuildRecordAsWritten` is the record the code as written builds. It
is proved equal to the corrected record in every field except the needle
size, and `Matcher.RecordAsWrittenDropsNeedleSize` shows a page on which that
field is `None` as written and the row's value when corrected.

## Model

| member | source | states |
|---|---|---|
| `Text.Strip` | scraper.py:55 | the stripped name has no whitespace at either end and is no longer than the input |
| `Text.StripRemovesOnlySpace` | scraper.py:55 | stripping removes only whitespace: the result is a contiguous piece of the input with only whitespace before and after it |
| `Text.StripIdempotent` | scraper.py:55 | stripping a stripped string changes nothing |
| `Text.LowerChar` | scraper.py:55 | an ASCII capital becomes its lower-case letter (code point plus 32); every other character is unchanged; the result is never an ASCII capital |
| `Text.Lower` | scraper.py:55 | `lower()` keeps the string's length |
| `Text.LowerAt` | scraper.py:55 | `lower()` works character by character: each position of the result is `LowerChar` of the same position of the input |
| `Text.LowerLeavesNoUpper` | scraper.py:55 | after `lower()` no upper-case letter is left in the name |
| `Text.LowerIdempotent` | scraper.py:55-57 | lower-casing the already lower-cased name again before the test changes nothing |
| `Text.ContainsIff` | scraper.py:57 | the contract of `Text.Contains`: `needle in hay` holds iff the needle occurs at some position of the haystack |
| `Text.EmptyIsEverywhere` | scraper.py:57 | the empty string is contained in every string |
| `Extract.ExtractPrice` | scraper.py:33-35 | a price exactly when the price element exists; then it is that element's text with only surrounding whitespace removed, possibly empty; never a failure |
| `Extract.ExtractAvailability` | scraper.py:37-39 | "Available" iff the stock marker is present, otherwise None; no other value ever |
| `Extract.RowPair` | scraper.py:45-46 | a row's key and value are its first and second cells with only surrounding whitespace removed: each is a run of its cell with nothing but whitespace before and after it, and neither has whitespace at an end |
| `Extract.Pairs` | scraper.py:45-47 | one key/value pair per row, in table order: the row's first and second cells, stripped |
| `Extract.PairsToMap` | scraper.py:43-47 | the dictionary's keys are exactly the keys of the pairs; for each key the value is that of the last pair with that key |
| `Extract.FirstShortRow` | scraper.py:44-46 | finds the first row with fewer than two cells, the row where indexing raises; none iff every row has two cells |
| `Extract.ExtractSpecs` | scraper.py:41-48 | a missing table fails with `MissingSpecsTable`; a short row fails with that row's index; otherwise succeeds with the row dictionary, exactly when the table exists and every row is readable |
| `Extract.NoRowsNoSpecs` | test_scraper.py:35-40 | a table with no rows gives the empty dictionary |
| `Extract.LaterRowWins` | scraper.py:47 | two pairs with the same key give a one-entry dictionary holding the second pair's value |
| `Extract.Get` | scraper.py:77-78 | `dict.get`: a value exactly when the key is present, and then the value stored under it |
| `Extract.NeedleSize` | scraper.py:77 | needle size is found exactly when the table has a row labelled "Nadelstärke", with that row's value |
| `Extract.NeedleSizeAsWritten` | scraper.py:77 | the lookup as spelled in the source finds a value only under the key "NadelstÃ¤rke" |
| `Extract.NeedleSizeKeyMissesLabel` | scraper.py:77 | for a table with a "Nadelstärke" row, the lookup as written gives None and the corrected lookup gives the row's value |
| `Extract.Composition` | scraper.py:78 | composition is found exactly when the table has a row labelled "Zusammenstellung" |
| `Document.Fetch` | scraper.py:24-31 | loading a URL gives the site's page exactly when the site has it, and otherwise fails with `FetchFailed` for that URL |
| `Sink.Save` | scraper.py:19-22 | after saving, the file holds the entire in-memory list, which is unchanged |
| `Sink.Append` | scraper.py:81-82 | the list grows by exactly the new record at its end; earlier records keep order and content; the file then mirrors the list |
| `Sink.AppendTwiceKeepsBoth` | scraper.py:81-82 | appending the same record twice keeps two copies: no deduplication |
| `Sink.FreshScraperKeepsAll` | scraper.py:14-22 | a fresh scraper that appends a sequence of records ends with exactly those records in its list, and in its file once anything was written |
| `Sink.AppendAllMirrors` | scraper.py:14-22 | from a mirrored state, any sequence of appends leaves the list equal to the old list followed by the new records, and the file mirrors it |
| `Matcher.ScanMissIff` | scraper.py:54-58 | for the tile loop `Matcher.ScanFrom` (`Matcher.FindEntry` is the loop from the first tile): the scan misses iff every tile has a name and none of the names matches |
| `Matcher.ScanHitIsFirstMatch` | scraper.py:54-58 | a hit is a matching tile with its normalized name and its link, and every tile before it has a non-matching name |
| `Matcher.ScanFailureIsFirstBadTile` | scraper.py:54-58 | a failure names the first tile that is neither passed over nor a hit: a tile without a name, or a matching tile without a link |
| `Matcher.FirstMatchWins` | scraper.py:54-58 | if tile i is the first match and has a link, the page's result is tile i whatever comes after it |
| `Matcher.MatchIgnoresCase` | scraper.py:57 | matching ignores the target's letter case |
| `Matcher.EmptyTargetMatchesFirst` | scraper.py:57 | an empty product name matches the first named tile |
| `Matcher.BuildRecord` | scraper.py:64-80 | the record carries the matched name and link, the extracted price and availability, the two looked-up specifications and "Wollplatz"; it fails exactly when the specification extractor fails, with its fault |
| `Matcher.FindProductOnPage` | scraper.py:50-87 | "not on page" iff the scan misses, and then nothing is fetched; exactly one detail page is fetched iff the scan hits, and it is the hit's link; a record is appended only on a hit; a failed scan (a tile without a name, or a matching tile without a link) raises exactly the scan's fault; on a hit, a missing detail page raises `FetchFailed`, an unreadable specification table raises its fault, and otherwise the record `BuildRecord` makes from the detail page and the hit's name and link is appended; nothing else changes the sink |
| `Matcher.BuildRecordAsWritten` | scraper.py:64-80 | the record as the code writes it: the same success or fault as the corrected record, and the same fields except the needle size, which is looked up under the misspelled key |
| `Matcher.RecordAsWrittenDropsNeedleSize` | scraper.py:77 | for a detail page with a "Nadelstärke" row, the record as written has no needle size and the corrected record has the row's value; the records agree otherwise |
| `Walker.FirstBrandLink` | scraper.py:97 | the first menu link with non-empty text containing the brand, ignoring case, and an href; none iff no link qualifies |
| `Walker.BrandLink` | scraper.py:94-99 | a brand page URL exists iff the menu exists, its text contains the brand ignoring case, and some link names the brand |
| `Walker.Chain` | scraper.py:107-116 | the chain starts at the brand page, has at most `fuel` pages, and ends before the bound only at a page that is missing or has no next link |
| `Walker.ChainLinks` | scraper.py:107-116 | each page of the chain is on the site and its `rel=next` link is the page after it |
| `Walker.WalkUnfold` | scraper.py:102-116 | one loop step: a page that does not pass ends the walk there with `Found` or `Failed`; a passing page without a next link ends it `NotFound`; a passing page with one continues the walk from that link |
| `Walker.Walk` | scraper.py:100-118 | the walk appends nothing unless it ends `Found`, fetches at most one detail page, and fetches none when it ends `NotFound` or `OutOfFuel` |
| `Walker.WalkFollowsChain` | scraper.py:106-116 | the pages fetched are a prefix of the chain, in chain order; every page before the last fetched one held no match |
| `Walker.WalkExhausts` | scraper.py:109-118 | `NotFound` iff every chain page was searched without a match and the last has no next link; `OutOfFuel` iff the bound cut the chain first; either way the whole chain was fetched |
| `Walker.WalkStopsAtFirstHit` | scraper.py:102-113 | a `Found` or `Failed` walk stopped at the last page it fetched, which did not pass; a `Found` walk appended exactly the record built from that page's first match |
| `Walker.WalkFailedFault` | scraper.py:100-116 | a `Failed` walk carries the fault of the last listing page it fetched: `FetchFailed` for that URL when the page is missing, otherwise the fault that page's product search raised |
| `Walker.FetchCountIsFirstStop` | scraper.py:100-116 | the number of listing fetches is the 1-based position of the first page that does not pass, and no later page is fetched |
| `Walker.CleanHitHere` | scraper.py:100-103 | a brand page whose scan hits a tile with a loadable detail page and readable table ends the search `Found` after one listing fetch, appending that record |
| `Walker.CleanHitIsFound` | scraper.py:100-116 | if chain page i, `hit`, is the first that does not pass and its hit is clean, the walk fetches the chain up to page i, ends `Found`, fetches that hit's detail page and appends exactly its record |
| `Walker.NoMatchFetchesWholeChain` | scraper.py:109-118 | with no match anywhere, the whole chain is fetched, nothing is appended and no detail page is fetched |
| `Walker.LonePageNotFound` | scraper.py:104-118 | a brand page with no match and no next link is fetched alone and ends `NotFound`: the loop's `else` runs on a false condition |
| `Scraper.ScrapeWollplatz` | scraper.py:89-118 | the home page is fetched first; a closed brand gate fetches nothing else and records nothing; otherwise the search reports the walk from the brand page; at most one record is appended, after which the file mirrors the list; "not found" is logged iff the gate opened and the chain was exhausted without a match |
| `Scraper.SearchBrandPages` | scraper.py:100-107 | searching the brand page, then its next links, reports exactly the walk from the brand page |
| `Scraper.FollowNextLinks` | scraper.py:109-118 | the `while`/`else` loop reports the rest of the walk; "not found" is logged only when the loop condition fails, never after a `break` |

## Left out

- `get_page_source` (Selenium, Chrome, scrolling): replaced by lookup in `Document.Site`. A URL not in the map raises `FetchFailed`.
- BeautifulSoup parsing and CSS queries: replaced by the fields of `Document.Page`. A page holds the first matching element of each kind. The three nested `find` calls on the way to the spec rows collapse into one optional field.
- `get_text(strip=True)`: modelled as `strip()` of the element's single text. The case of several text pieces that are stripped separately and then joined is not modelled.
- Unicode `str.lower()` and `str.strip()`: modelled for ASCII only. Only ASCII letters are folded. Only ASCII whitespace (space, `\t`..`\r`, 0x1C..0x1F) is stripped.
- Walker.Walk: the walk is bounded by `fuel`, which the source does not have. A cyclic or endless `rel=next` chain ends `OutOfFuel` here, where the source would loop forever.
- Scraper.ScrapeWollplatz: same fuel bound as the walk.
- Matcher.BuildRecord: looks the needle size up under the corrected key "Nadelstärke", not under the literal at scraper.py:77, so on a page with that row the model records the value where the code as written records null. `Matcher.BuildRecordAsWritten` is the code's record, and it differs in that field only.
- The relation between the menu's whole text and its links' texts: both are given independently in `Document.Nav`.
- `save_in_json` serialization (`json.dumps`, `ensure_ascii=False`, indentation, file encoding): only the file's content is modelled, as a copy of the list.
- Logging: only the "not found on any page" line is modelled, as `notFoundLogged`. The other informational and debug lines have no effect on behaviour.
- `Scrappers.run_scraper`: the Excel input and the per-row loop are left out. Its `except` branch calls `self.wollplatz.error`, which `WollplatzScraper` does not define, so one failing request would end the whole run instead of being logged. The model therefore claims no resilience across requests. A single search's fault is returned as `Failed`.
- Non-string brand or product values from the spreadsheet (for example an empty cell read as a float): the model's inputs are strings.

## Findings

| source | as written | input that shows it | evidently intended | confidence | as-written member | corrected member |
|---|---|---|---|---|---|---|
| scraper.py:77 | the needle-size key is `'NadelstÃ¤rke'`: the UTF-8 bytes of "ä" read back as Latin-1, so the literal is 12 characters and not the vendor's label | a detail page whose spec table has the row "Nadelstärke" / "3-4": the lookup gives None and the record's `Needle Size` is null | the key `'Nadelstärke'`, so the row's value is recorded | medium, not executed | `Extract.NeedleSizeAsWritten`, `Matcher.BuildRecordAsWritten` (shown by `Extract.NeedleSizeKeyMissesLabel`, `Matcher.RecordAsWrittenDropsNeedleSize`) | `Extract.NeedleSize`, `Matcher.BuildRecord` |
