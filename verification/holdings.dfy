/** Holding extraction, `AlmaSearchClient::process_catalogue_record_holdings`:
    one record per `holding` element below the given element, in document
    order, with the five count attributes cast to integers and every other
    field copied verbatim. */
module Holdings {
  import opened Dom
  import PhpInt

  datatype Holding = Holding(
    reservable: string,
    status: string,
    orderedCount: int,
    checkedOutCount: int,
    referenceCount: int,
    totalCount: int,
    collectionId: string,
    sublocationId: string,
    locationId: string,
    departmentId: string,
    branchId: string,
    organisationId: string,
    availableCount: int,
    shelfMark: string,
    availableFrom: string)

  /** One `holding` element read into a `Holding`: every string field is the
      attribute of the same meaning ("" when absent), and every count is the
      `(int)` cast of its attribute, so 0 when the attribute is absent. */
  function ParseHolding(item: Element): (h: Holding)
    ensures h.reservable == GetAttribute(item, "reservable") && h.status == GetAttribute(item, "status")
    ensures h.collectionId == GetAttribute(item, "collectionId")
    ensures h.sublocationId == GetAttribute(item, "subLocationId")
    ensures h.locationId == GetAttribute(item, "locationId")
    ensures h.departmentId == GetAttribute(item, "departmentId")
    ensures h.branchId == GetAttribute(item, "branchId")
    ensures h.organisationId == GetAttribute(item, "organisationId")
    ensures h.shelfMark == GetAttribute(item, "shelfMark")
    ensures h.availableFrom == GetAttribute(item, "firstLoanDueDate")
    ensures h.orderedCount == PhpInt.ToInt(GetAttribute(item, "nofOrdered"))
    ensures h.checkedOutCount == PhpInt.ToInt(GetAttribute(item, "nofCheckedOut"))
    ensures h.referenceCount == PhpInt.ToInt(GetAttribute(item, "nofReference"))
    ensures h.totalCount == PhpInt.ToInt(GetAttribute(item, "nofTotal"))
    ensures h.availableCount == PhpInt.ToInt(GetAttribute(item, "nofAvailableForLoan"))
    ensures "nofOrdered" !in item.attrs ==> h.orderedCount == 0
    ensures "nofCheckedOut" !in item.attrs ==> h.checkedOutCount == 0
    ensures "nofReference" !in item.attrs ==> h.referenceCount == 0
    ensures "nofTotal" !in item.attrs ==> h.totalCount == 0
    ensures "nofAvailableForLoan" !in item.attrs ==> h.availableCount == 0
  {
    Holding(
      reservable := GetAttribute(item, "reservable"),
      status := GetAttribute(item, "status"),
      orderedCount := PhpInt.ToInt(GetAttribute(item, "nofOrdered")),
      checkedOutCount := PhpInt.ToInt(GetAttribute(item, "nofCheckedOut")),
      referenceCount := PhpInt.ToInt(GetAttribute(item, "nofReference")),
      totalCount := PhpInt.ToInt(GetAttribute(item, "nofTotal")),
      collectionId := GetAttribute(item, "collectionId"),
      sublocationId := GetAttribute(item, "subLocationId"),
      locationId := GetAttribute(item, "locationId"),
      departmentId := GetAttribute(item, "departmentId"),
      branchId := GetAttribute(item, "branchId"),
      organisationId := GetAttribute(item, "organisationId"),
      availableCount := PhpInt.ToInt(GetAttribute(item, "nofAvailableForLoan")),
      shelfMark := GetAttribute(item, "shelfMark"),
      availableFrom := GetAttribute(item, "firstLoanDueDate"))
  }

  function ParseAll(items: seq<Element>): (r: seq<Holding>)
    ensures |r| == |items|
    ensures forall i :: 0 <= i < |items| ==> r[i] == ParseHolding(items[i])
  {
    if items == [] then [] else [ParseHolding(items[0])] + ParseAll(items[1..])
  }

  /** `process_catalogue_record_holdings($elem)`. */
  function ExtractHoldings(e: Element): (r: seq<Holding>)
    ensures |r| == |Named(Descendants(e), "holding")|
    ensures forall i :: 0 <= i < |r| ==> r[i] == ParseHolding(Named(Descendants(e), "holding")[i])
  {
    ElementsByTagNameIsFilteredDescendants(e, "holding");
    ParseAll(ElementsByTagName(e, "holding"))
  }

  /** A holding element that lacks `nofAvailableForLoan` has availability 0,
      whatever its other attributes, and one that lacks `branchId` has
      branch "", whatever its counts. */
  lemma MissingAttributesDefault(item: Element)
    ensures "nofAvailableForLoan" !in item.attrs ==> ParseHolding(item).availableCount == 0
    ensures "branchId" !in item.attrs ==> ParseHolding(item).branchId == ""
  {
    PhpInt.CastExamples();
  }

  /** Count attributes written in canonical decimal are read back exactly. */
  lemma CanonicalCountsReadBack(item: Element, n: int)
    requires GetAttribute(item, "nofAvailableForLoan") == PhpInt.FromInt(n)
    ensures ParseHolding(item).availableCount == n
  {
    PhpInt.FromIntToInt(n);
  }
}
