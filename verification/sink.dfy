/** The scraper's result list and its JSON mirror. Every found product is
    appended to the in-memory list and the whole list is written out again
    at once. */
module Sink {
  import opened Wrappers

  /** The constant `Website` field of every record. */
  const Website: string := "Wollplatz"

  /** One persisted product: the JSON object with keys `name`, `link`,
      `price`, `availability`, `Needle Size`, `Composition`, `Website`. */
  datatype Record = Record(
    name: string,
    link: string,
    price: Option<string>,
    availability: Option<string>,
    needleSize: Option<string>,
    composition: Option<string>,
    website: string)

  /** The in-memory list `scraped_data` and the content of the JSON file:
      `None` until the scraper first writes it. */
  datatype Sink = Sink(records: seq<Record>, saved: Option<seq<Record>>)

  /** The state of a freshly constructed scraper. */
  function Empty(): Sink {
    Sink([], None)
  }

  /** The file, once written, mirrors the whole list; before that the list
      is empty. */
  predicate Mirrored(s: Sink) {
    match s.saved
    case None => s.records == []
    case Some(snapshot) => snapshot == s.records
  }

  /** `save_in_json`: overwrite the file with the entire list. */
  function Save(s: Sink): (s': Sink)
    ensures Mirrored(s')
    ensures s'.records == s.records
  {
    s.(saved := Some(s.records))
  }

  /** `scraped_data.append(record)` followed by `save_in_json()`: the list
      grows by exactly this record at its end, earlier records keep their
      order and content, and the file then holds the whole list. */
  function Append(s: Sink, record: Record): (s': Sink)
    ensures |s'.records| == |s.records| + 1
    ensures s'.records[..|s.records|] == s.records
    ensures s'.records[|s.records|] == record
    ensures Mirrored(s')
  {
    Save(s.(records := s.records + [record]))
  }

  /** Appending the same record twice keeps both copies: there is no
      deduplication. */
  lemma AppendTwiceKeepsBoth(s: Sink, record: Record)
    ensures var s2 := Append(Append(s, record), record);
            |s2.records| == |s.records| + 2
            && s2.records[|s.records|] == record
            && s2.records[|s.records| + 1] == record
            && s2.saved == Some(s2.records)
  {
  }

  /** From any mirrored state, a fresh scraper's `Empty()` included, after
      any sequence of appends the file holds exactly the records: the old
      ones followed by the new, in the order they were found. */
  lemma {:induction false} AppendAllMirrors(s: Sink, found: seq<Record>)
    requires Mirrored(s)
    ensures Mirrored(AppendAll(s, found))
    ensures AppendAll(s, found).records == s.records + found
    decreases |found|
  {
    if |found| > 0 {
      var s1 := AppendAll(s, found[..|found| - 1]);
      AppendAllMirrors(s, found[..|found| - 1]);
      assert s1.records + [found[|found| - 1]] == s.records + found;
    }
  }

  /** A fresh scraper that finds `found`, one record after another, ends
      with exactly those records in its list and in its file. */
  lemma FreshScraperKeepsAll(found: seq<Record>)
    ensures AppendAll(Empty(), found).records == found
    ensures AppendAll(Empty(), found).saved == (if found == [] then None else Some(found))
  {
    AppendAllMirrors(Empty(), found);
    assert [] + found == found;
  }

  /** The sink after appending each of `found` in turn. */
  function AppendAll(s: Sink, found: seq<Record>): Sink
    decreases |found|
  {
    if |found| == 0 then s
    else Append(AppendAll(s, found[..|found| - 1]), found[|found| - 1])
  }
}
