/** The field extractors run on a product detail page. Price and
    availability never fail; the specification table is a hard
    requirement. */
module Extract {
  import opened Wrappers
  import opened Text
  import opened Document

  /** The only value availability ever takes. */
  const Available: string := "Available"

  /** The vendor's label for needle size ("Nadelstärke"). */
  const NeedleSizeLabel: string := "Nadelst\U{E4}rke"

  /** The vendor's label for composition. */
  const CompositionLabel: string := "Zusammenstellung"

  /** The needle-size key as spelled in the source: the UTF-8 bytes of "ä"
      read back as two Latin-1 characters, "Ã¤". */
  const NeedleSizeKeyAsWritten: string := "Nadelst\U{C3}\U{A4}rke"

  /** The stripped text of the price element when there is one, possibly
      the empty string; no price element gives None, never a failure. */
  function ExtractPrice(page: Page): (r: Option<string>)
    ensures r.Some? <==> page.price.Some?
    ensures r.Some? ==> NoEdgeSpace(r.value)
    ensures r.Some? ==> exists a :: StrippedAt(page.price.value, r.value, a)
  {
    match page.price
    case None => None
    case Some(raw) =>
      StripRemovesOnlySpace(raw);
      Some(Strip(raw))
  }

  /** "Available" exactly when the in-stock marker is present, otherwise
      None; no other value is ever produced. */
  function ExtractAvailability(page: Page): (r: Option<string>)
    ensures r.Some? <==> page.stockMarker
    ensures r == None || r == Some(Available)
  {
    if page.stockMarker then Some(Available) else None
  }

  /** A row the extractor can read: it has at least two cells. */
  predicate Readable(row: SpecRow) {
    |row.cells| >= 2
  }

  predicate AllReadable(rows: seq<SpecRow>) {
    forall i :: 0 <= i < |rows| ==> Readable(rows[i])
  }

  /** A row's key and value: its first two cells, stripped. */
  function RowPair(row: SpecRow): (p: (string, string))
    requires Readable(row)
    ensures NoEdgeSpace(p.0) && NoEdgeSpace(p.1)
    ensures |p.0| <= |row.cells[0]| && |p.1| <= |row.cells[1]|
    ensures exists a :: StrippedAt(row.cells[0], p.0, a)
    ensures exists a :: StrippedAt(row.cells[1], p.1, a)
  {
    StripRemovesOnlySpace(row.cells[0]);
    StripRemovesOnlySpace(row.cells[1]);
    (Strip(row.cells[0]), Strip(row.cells[1]))
  }

  /** The key/value pair of every row, in table order. */
  function Pairs(rows: seq<SpecRow>): (p: seq<(string, string)>)
    requires AllReadable(rows)
    ensures |p| == |rows|
    ensures forall i :: 0 <= i < |rows| ==> p[i] == RowPair(rows[i])
  {
    seq(|rows|, i requires 0 <= i < |rows| && AllReadable(rows) => RowPair(rows[i]))
  }

  /** Some pair has key `k`. */
  ghost predicate HasKey(pairs: seq<(string, string)>, k: string) {
    exists i :: 0 <= i < |pairs| && pairs[i].0 == k
  }

  /** No later pair repeats the key of pair `i`. */
  ghost predicate LastWithKey(pairs: seq<(string, string)>, i: int) {
    0 <= i < |pairs| && forall j :: i < j < |pairs| ==> pairs[j].0 != pairs[i].0
  }

  /** The dictionary the row loop builds: one key per distinct key, and
      for a repeated key the value of the last pair carrying it. */
  function PairsToMap(pairs: seq<(string, string)>): (m: map<string, string>)
    ensures forall k :: k in m <==> HasKey(pairs, k)
    ensures forall i :: 0 <= i < |pairs| ==> pairs[i].0 in m
    ensures forall i :: LastWithKey(pairs, i) ==> m[pairs[i].0] == pairs[i].1
  {
    if |pairs| == 0 then map[]
    else
      var init := pairs[..|pairs| - 1];
      var last := pairs[|pairs| - 1];
      HasKeySnoc(pairs);
      LastWithKeySnoc(pairs);
      PairsToMap(init)[last.0 := last.1]
  }

  /** The keys of a non-empty list: those of all but its last pair, and
      the last pair's. */
  lemma HasKeySnoc(pairs: seq<(string, string)>)
    requires |pairs| > 0
    ensures forall k :: HasKey(pairs, k) <==>
      HasKey(pairs[..|pairs| - 1], k) || k == pairs[|pairs| - 1].0
  {
  }

  /** A pair other than the final one that is last with its key in the
      whole list is also last with its key in all but the final pair. */
  lemma LastWithKeySnoc(pairs: seq<(string, string)>)
    requires |pairs| > 0
    ensures forall i :: 0 <= i < |pairs| - 1 && LastWithKey(pairs, i) ==>
      LastWithKey(pairs[..|pairs| - 1], i) && pairs[i].0 != pairs[|pairs| - 1].0
  {
  }

  /** The first row at or after `k` that has fewer than two cells. */
  function FirstShortRow(rows: seq<SpecRow>, k: nat): (r: Option<nat>)
    requires k <= |rows|
    ensures r.None? <==> forall i :: k <= i < |rows| ==> Readable(rows[i])
    ensures r.Some? ==> k <= r.value < |rows| && !Readable(rows[r.value])
    ensures r.Some? ==> forall i :: k <= i < r.value ==> Readable(rows[i])
    decreases |rows| - k
  {
    if k == |rows| then None
    else if !Readable(rows[k]) then Some(k)
    else FirstShortRow(rows, k + 1)
  }

  /** The specification dictionary of a detail page. A missing table is a
      failure, as is a row with fewer than two cells (the first such row);
      otherwise every row contributes its key and the last row wins. */
  function ExtractSpecs(page: Page): (r: Result<map<string, string>, Fault>)
    ensures page.specRows.None? ==> r == Failure(MissingSpecsTable)
    ensures r.Failure? && page.specRows.Some? ==>
      r.error.ShortSpecRow? && r.error.rowIndex < |page.specRows.value|
      && !Readable(page.specRows.value[r.error.rowIndex])
    ensures r.Success? <==> page.specRows.Some? && AllReadable(page.specRows.value)
    ensures r.Success? ==> r.value == PairsToMap(Pairs(page.specRows.value))
  {
    match page.specRows
    case None => Failure(MissingSpecsTable)
    case Some(rows) =>
      match FirstShortRow(rows, 0)
      case Some(i) => Failure(ShortSpecRow(i))
      case None => Success(PairsToMap(Pairs(rows)))
  }

  /** Python's `dict.get`: the value under `key`, or None. */
  function Get(specs: map<string, string>, key: string): (r: Option<string>)
    ensures r.Some? <==> key in specs
    ensures r.Some? ==> r.value == specs[key]
  {
    if key in specs then Some(specs[key]) else None
  }

  /** Needle size looked up under the vendor's label "Nadelstärke": found
      exactly when the table has a row with that label. */
  function NeedleSize(specs: map<string, string>): (r: Option<string>)
    ensures r.Some? <==> NeedleSizeLabel in specs
    ensures r.Some? ==> r.value == specs[NeedleSizeLabel]
  {
    Get(specs, NeedleSizeLabel)
  }

  /** Needle size looked up under the key the source spells out,
      "NadelstÃ¤rke", which is not the vendor's label. */
  function NeedleSizeAsWritten(specs: map<string, string>): (r: Option<string>)
    ensures r.Some? <==> NeedleSizeKeyAsWritten in specs
    ensures r.Some? ==> r.value == specs[NeedleSizeKeyAsWritten]
  {
    Get(specs, NeedleSizeKeyAsWritten)
  }

  /** Composition looked up under the vendor's label "Zusammenstellung". */
  function Composition(specs: map<string, string>): (r: Option<string>)
    ensures r.Some? <==> CompositionLabel in specs
    ensures r.Some? ==> r.value == specs[CompositionLabel]
  {
    Get(specs, CompositionLabel)
  }

  /** A table with no rows gives the empty dictionary, not a failure. */
  lemma NoRowsNoSpecs(page: Page)
    requires page.specRows == Some([])
    ensures ExtractSpecs(page) == Success(map[])
  {
  }

  /** When two rows carry the same key, the later row's value is the one
      kept. */
  lemma LaterRowWins(key: string, first: string, second: string)
    ensures PairsToMap([(key, first), (key, second)]) == map[key := second]
  {
  }

  /** The misspelled key misses the needle size the vendor lists under its
      own label, while the vendor's label finds it. */
  lemma NeedleSizeKeyMissesLabel(v: string)
    requires NoEdgeSpace(v)
    ensures var page := Page(None, [], None, None, false,
                             Some([SpecRow([NeedleSizeLabel, v])]));
            && ExtractSpecs(page).Success?
            && NeedleSizeAsWritten(ExtractSpecs(page).value) == None
            && NeedleSize(ExtractSpecs(page).value) == Some(v)
  {
    StripOfEdgeless(NeedleSizeLabel);
    StripOfEdgeless(v);
    var rows := [SpecRow([NeedleSizeLabel, v])];
    assert Pairs(rows) == [(NeedleSizeLabel, v)];
    assert [(NeedleSizeLabel, v)][..0] == [];
    assert NeedleSizeKeyAsWritten != NeedleSizeLabel by {
      assert NeedleSizeKeyAsWritten[7] != NeedleSizeLabel[7];
    }
  }
}
