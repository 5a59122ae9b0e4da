/** Catalogue record parsing, `AlmaSearchClient::process_catalogue_record_details`:
    scalar attributes copied as raw strings, the reservation-button flag
    coerced to a boolean, repeated child kinds collected as `value` lists,
    and holdings shaped by the media class. */
module CatalogueRecord {
  import opened Dom
  import opened Holdings
  import opened Periodical

  /** The media class that selects the nested holdings shape. */
  const PeriodicalClass: string := "periodical"

  /** Flat holdings for every media class but "periodical"; year -> issue
      holdings with their aggregates for periodicals. The two are exclusive:
      a record carries `issues` only in the nested shape. */
  datatype HoldingsShape =
    | Flat(items: seq<Holding>)
    | ByIssue(nested: Nested)

  /** The `$record` array. The record-level counts stay raw strings, exactly
      as the attributes read. A list field that PHP leaves unset (no element
      of that kind) is the empty sequence here. */
  datatype Record = Record(
    almaId: string,
    targetAudience: string,
    showReservationButton: bool,
    reservationCount: string,
    loanCountYear: string,
    loanCountTotal: string,
    availableCount: string,
    titleSeries: string,
    titleOriginal: string,
    resourceType: string,
    publicationYear: string,
    mediaClass: string,
    extent: string,
    edition: string,
    category: string,
    authors: seq<string>,
    descriptions: seq<string>,
    isbns: seq<string>,
    languages: seq<string>,
    notes: seq<string>,
    titles: seq<string>,
    holdings: HoldingsShape)

  /** `foreach ($elem->getElementsByTagName($tag) as $item) $list[] =
      $item->getAttribute('value')`: the `value` of every `tag` element
      below `e`, in document order. */
  function ChildValues(e: Element, tag: string): seq<string> {
    AttributeValues(ElementsByTagName(e, tag), "value")
  }

  /** `($flag == 'yes') ? TRUE : FALSE`. */
  function YesFlag(flag: string): bool {
    flag == "yes"
  }

  /** Parse one `detailCatalogueRecord` element: the id and the counts are
      the raw attribute text, the reservation flag is a strict "yes" test,
      and the media class selects flat holdings or the consistent nested
      periodical shape. */
  function ParseRecord(e: Element): (r: Record)
    ensures r.almaId == GetAttribute(e, "id")
    ensures r.reservationCount == GetAttribute(e, "nofReservations")
    ensures r.loanCountYear == GetAttribute(e, "nofLoansYear")
    ensures r.loanCountTotal == GetAttribute(e, "nofLoansTotal")
    ensures r.availableCount == GetAttribute(e, "nofAvailableForLoan")
    ensures r.showReservationButton <==>
              "showReservationButton" in e.attrs && e.attrs["showReservationButton"] == "yes"
    ensures r.holdings.Flat? <==> GetAttribute(e, "mediaClass") != PeriodicalClass
    ensures r.holdings.Flat? ==> r.holdings.items == ExtractHoldings(e)
    ensures r.holdings.ByIssue? ==> r.holdings.nested == PeriodicalHoldings(e)
    ensures r.holdings.ByIssue? ==> Consistent(r.holdings.nested)
    ensures r.targetAudience == GetAttribute(e, "targetAudience")
    ensures r.titleSeries == GetAttribute(e, "titleSeries")
    ensures r.titleOriginal == GetAttribute(e, "titleOriginal")
    ensures r.resourceType == GetAttribute(e, "resourceType")
    ensures r.publicationYear == GetAttribute(e, "publicationYear")
    ensures r.mediaClass == GetAttribute(e, "mediaClass")
    ensures r.extent == GetAttribute(e, "extent")
    ensures r.edition == GetAttribute(e, "edition")
    ensures r.category == GetAttribute(e, "category")
    ensures r.authors == ChildValues(e, "author")
    ensures r.descriptions == ChildValues(e, "description")
    ensures r.isbns == ChildValues(e, "isbn")
    ensures r.languages == ChildValues(e, "language")
    ensures r.notes == ChildValues(e, "note")
    ensures r.titles == ChildValues(e, "title")
  {
    var mediaClass := GetAttribute(e, "mediaClass");
    Record(
      almaId := GetAttribute(e, "id"),
      targetAudience := GetAttribute(e, "targetAudience"),
      showReservationButton := YesFlag(GetAttribute(e, "showReservationButton")),
      reservationCount := GetAttribute(e, "nofReservations"),
      loanCountYear := GetAttribute(e, "nofLoansYear"),
      loanCountTotal := GetAttribute(e, "nofLoansTotal"),
      availableCount := GetAttribute(e, "nofAvailableForLoan"),
      titleSeries := GetAttribute(e, "titleSeries"),
      titleOriginal := GetAttribute(e, "titleOriginal"),
      resourceType := GetAttribute(e, "resourceType"),
      publicationYear := GetAttribute(e, "publicationYear"),
      mediaClass := mediaClass,
      extent := GetAttribute(e, "extent"),
      edition := GetAttribute(e, "edition"),
      category := GetAttribute(e, "category"),
      authors := ChildValues(e, "author"),
      descriptions := ChildValues(e, "description"),
      isbns := ChildValues(e, "isbn"),
      languages := ChildValues(e, "language"),
      notes := ChildValues(e, "note"),
      titles := ChildValues(e, "title"),
      holdings :=
        if mediaClass != PeriodicalClass then Flat(ExtractHoldings(e))
        else ByIssue(PeriodicalHoldings(e)))
  }

  /** The reservation button is shown iff the attribute reads exactly
      "yes": "Yes", "no", "" and an absent attribute all give false. */
  lemma ReservationButtonIffYes(e: Element)
    ensures ParseRecord(e).showReservationButton <==>
              "showReservationButton" in e.attrs && e.attrs["showReservationButton"] == "yes"
    ensures !YesFlag("Yes") && !YesFlag("no") && !YesFlag("") && YesFlag("yes")
  {
    assert "Yes"[0] != "yes"[0];
  }

  /** Record-level counts are the attribute text, uncoerced: a missing
      count stays "" rather than becoming 0. */
  lemma RecordCountsAreRaw(e: Element)
    ensures ParseRecord(e).reservationCount == GetAttribute(e, "nofReservations")
    ensures ParseRecord(e).loanCountYear == GetAttribute(e, "nofLoansYear")
    ensures ParseRecord(e).loanCountTotal == GetAttribute(e, "nofLoansTotal")
    ensures ParseRecord(e).availableCount == GetAttribute(e, "nofAvailableForLoan")
    ensures "nofReservations" !in e.attrs ==> ParseRecord(e).reservationCount == ""
    ensures "nofLoansYear" !in e.attrs ==> ParseRecord(e).loanCountYear == ""
    ensures "nofLoansTotal" !in e.attrs ==> ParseRecord(e).loanCountTotal == ""
    ensures "nofAvailableForLoan" !in e.attrs ==> ParseRecord(e).availableCount == ""
  {
  }

  /** Dispatch on the media class: a non-periodical record has flat holdings
      (one per `holding` element below it, in order) and no issues; a
      periodical has the nested shape, whose holdings and issues maps have
      the same (year, issue) keys and matching aggregates. */
  lemma MediaClassDispatch(e: Element)
    ensures ParseRecord(e).holdings.Flat? <==> GetAttribute(e, "mediaClass") != "periodical"
    ensures ParseRecord(e).holdings.Flat? ==>
              && ParseRecord(e).holdings.items == ExtractHoldings(e)
              && |ParseRecord(e).holdings.items| == |Named(Descendants(e), "holding")|
    ensures ParseRecord(e).holdings.ByIssue? ==> Consistent(ParseRecord(e).holdings.nested)
  {
  }

  /** `ChildValues` of a tag is the `value` of each element of that kind
      among the record's descendants, in document order, and so empty when
      there is none. */
  lemma ChildValuesInDocumentOrder(e: Element, tag: string)
    ensures ChildValues(e, tag) == AttributeValues(Named(Descendants(e), tag), "value")
  {
    ElementsByTagNameIsFilteredDescendants(e, tag);
  }

  /** Each list field of a parsed record holds the `value` of every element
      of its kind among the record's descendants, in document order. */
  lemma ListsFollowDocumentOrder(e: Element)
    ensures ParseRecord(e).authors == AttributeValues(Named(Descendants(e), "author"), "value")
    ensures ParseRecord(e).descriptions == AttributeValues(Named(Descendants(e), "description"), "value")
    ensures ParseRecord(e).isbns == AttributeValues(Named(Descendants(e), "isbn"), "value")
    ensures ParseRecord(e).languages == AttributeValues(Named(Descendants(e), "language"), "value")
    ensures ParseRecord(e).notes == AttributeValues(Named(Descendants(e), "note"), "value")
    ensures ParseRecord(e).titles == AttributeValues(Named(Descendants(e), "title"), "value")
  {
    ChildValuesInDocumentOrder(e, "author");
    ChildValuesInDocumentOrder(e, "description");
    ChildValuesInDocumentOrder(e, "isbn");
    ChildValuesInDocumentOrder(e, "language");
    ChildValuesInDocumentOrder(e, "note");
    ChildValuesInDocumentOrder(e, "title");
  }
}
