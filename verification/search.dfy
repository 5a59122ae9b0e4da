/** Search-id extraction, `AlmaSearchClient::run_lms_search`: one request
    with status checking off, then the paging envelope and the ids of the
    `catalogueRecord` elements in document order. */
module Search {
  import opened Wrappers
  import opened Dom
  import opened Status

  /** The `$data` array returned by a search. The envelope counts are the
      elements' text, `None` when the element is missing (PHP reads a
      property of null as null). */
  datatype SearchResult = SearchResult(
    requestStatus: string,
    numberOfRecords: Option<string>,
    numberOfRecordsTotal: Option<string>,
    startNumber: Option<string>,
    stopNumber: Option<string>,
    almaIds: seq<string>)

  /** `$doc->getElementsByTagName($tag)->item(0)->nodeValue`. */
  function TextOf(doc: Document, tag: string): (r: Option<string>)
    ensures r.Some? <==> |FindAll(doc, tag)| > 0
    ensures r.Some? ==> r.value == FindAll(doc, tag)[0].text
  {
    match First(FindAll(doc, tag))
    case None => None
    case Some(x) => Some(x.text)
  }

  /** `run_lms_search` given the transport's response. A non-200 response
      fails; a document without a status element fails (the status value is
      read through a null item); otherwise the search succeeds whatever the
      status value says, and reports that value. */
  function RunLmsSearch(resp: Response): (r: Result<SearchResult, Error>)
    ensures resp.code != 200 ==> r == Failure(HttpError(resp.code, resp.error))
    ensures r.Success? <==> resp.code == 200 && StatusElement(resp.body).Some?
    ensures r.Success? ==>
              r.value.requestStatus == GetAttribute(StatusElement(resp.body).value, "value")
    ensures r.Success? ==>
              && |r.value.almaIds| == |FindAll(resp.body, "catalogueRecord")|
              && forall k :: 0 <= k < |r.value.almaIds| ==>
                   r.value.almaIds[k] == GetAttribute(FindAll(resp.body, "catalogueRecord")[k], "id")
  {
    var doc :- Request(resp, false);
    match StatusElement(doc)
    case None => Failure(MissingStatus)
    case Some(s) =>
      Success(SearchResult(
        requestStatus := GetAttribute(s, "value"),
        numberOfRecords := TextOf(doc, "nofRecords"),
        numberOfRecordsTotal := TextOf(doc, "nofRecordsTotal"),
        startNumber := TextOf(doc, "startNo"),
        stopNumber := TextOf(doc, "stopNo"),
        almaIds := AttributeValues(FindAll(doc, "catalogueRecord"), "id")))
  }

  /** A leaf element: no children. */
  function Leaf(name: string, attrs: map<string, string>, text: string): Element {
    Element(name, attrs, [], text)
  }

  /** Below a root whose children are all leaves, the tag search is the
      children with that name. */
  lemma {:induction false} FlatSearch(es: seq<Element>, tag: string)
    requires forall k :: 0 <= k < |es| ==> es[k].children == []
    ensures TagsInForest(es, tag) == Named(es, tag)
    decreases |es|
  {
    if es != [] {
      FlatSearch(es[1..], tag);
      assert ElementsByTagName(es[0], tag) == [];
    }
  }

  function RecordLeaf(id: string): Element {
    Leaf("catalogueRecord", map["id" := id], "")
  }

  /** The children of the example search response. */
  function ExampleChildren(): seq<Element> {
    [Leaf("status", map["value" := "ok"], ""),
     Leaf("nofRecords", map[], "2"), Leaf("nofRecordsTotal", map[], "2"),
     Leaf("startNo", map[], "1"), Leaf("stopNo", map[], "2"),
     RecordLeaf("123"), RecordLeaf("456")]
  }

  function Sel(x: Element, tag: string): seq<Element> {
    if x.name == tag then [x] else []
  }

  /** `Named` over the example children, one position at a time. */
  lemma ExampleNamed(tag: string)
    ensures var k := ExampleChildren();
            Named(k, tag) == Sel(k[0], tag) + (Sel(k[1], tag) + (Sel(k[2], tag) + (Sel(k[3], tag)
                             + (Sel(k[4], tag) + (Sel(k[5], tag) + Sel(k[6], tag))))))
  {
    var k := ExampleChildren();
    assert k[7..] == [];
    NamedStep(k, 6, tag);
    NamedStep(k, 5, tag);
    NamedStep(k, 4, tag);
    NamedStep(k, 3, tag);
    NamedStep(k, 2, tag);
    NamedStep(k, 1, tag);
    NamedStep(k, 0, tag);
    assert k[0..] == k;
  }

  /** One step of `Named` along a sequence: position `i` is selected or
      skipped, then the rest follows. */
  lemma NamedStep(k: seq<Element>, i: nat, tag: string)
    requires i < |k|
    ensures Named(k[i..], tag) == Sel(k[i], tag) + Named(k[i + 1..], tag)
  {
    assert k[i..] == [k[i]] + k[i + 1..];
    NamedCons(k[i], k[i + 1..], tag);
  }

  /** The example search response. */
  function ExampleResponse(): Response {
    Response(200, "", Document(Element("searchResponse", map[], ExampleChildren(), "")))
  }

  lemma ExampleFindAll(tag: string)
    requires tag != "searchResponse"
    ensures FindAll(ExampleResponse().body, tag) == Named(ExampleChildren(), tag)
  {
    FlatSearch(ExampleChildren(), tag);
  }

  lemma ExampleRecords()
    ensures Named(ExampleChildren(), "catalogueRecord") == ExampleChildren()[5..]
  {
    ExampleNamed("catalogueRecord");
  }

  lemma ExampleStatus()
    ensures StatusElement(ExampleResponse().body) == Some(ExampleChildren()[0])
  {
    ExampleFindAll("status");
    ExampleNamed("status");
  }

  /** Envelope child `j` is the only element of the example carrying its
      tag, so the envelope field of that tag is its text. */
  lemma ExampleText(j: nat)
    requires 1 <= j <= 4
    ensures var k := ExampleChildren();
            TextOf(ExampleResponse().body, k[j].name) == Some(k[j].text)
  {
    var k := ExampleChildren();
    var tag := k[j].name;
    ExampleFindAll(tag);
    ExampleNamed(tag);
    if j == 1 {
      assert Named(k, tag) == [k[1]];
    } else if j == 2 {
      assert Named(k, tag) == [k[2]];
    } else if j == 3 {
      assert Named(k, tag) == [k[3]];
    } else {
      assert Named(k, tag) == [k[4]];
    }
  }

  /** The example's paging envelope. */
  lemma ExampleEnvelope()
    ensures TextOf(ExampleResponse().body, "nofRecords") == Some("2")
    ensures TextOf(ExampleResponse().body, "nofRecordsTotal") == Some("2")
    ensures TextOf(ExampleResponse().body, "startNo") == Some("1")
    ensures TextOf(ExampleResponse().body, "stopNo") == Some("2")
  {
    var k := ExampleChildren();
    ExampleText(1);
    ExampleText(2);
    ExampleText(3);
    ExampleText(4);
    assert k[1].name == "nofRecords" && k[1].text == "2";
    assert k[2].name == "nofRecordsTotal" && k[2].text == "2";
    assert k[3].name == "startNo" && k[3].text == "1";
    assert k[4].name == "stopNo" && k[4].text == "2";
  }

  lemma ExampleRecordsFound()
    ensures FindAll(ExampleResponse().body, "catalogueRecord") == [RecordLeaf("123"), RecordLeaf("456")]
  {
    ExampleFindAll("catalogueRecord");
    ExampleRecords();
  }

  lemma TwoIds(a: string, b: string)
    ensures AttributeValues([RecordLeaf(a), RecordLeaf(b)], "id") == [a, b]
  {
    assert [RecordLeaf(a), RecordLeaf(b)][1..] == [RecordLeaf(b)];
  }

  lemma ExampleIds()
    ensures AttributeValues(FindAll(ExampleResponse().body, "catalogueRecord"), "id") == ["123", "456"]
  {
    ExampleRecordsFound();
    TwoIds("123", "456");
  }

  /** A response with the envelope 2 / 2 / 1 / 2 and records "123" and
      "456" yields exactly those ids in that order and that envelope. */
  lemma TwoRecordSearch()
    ensures RunLmsSearch(ExampleResponse())
            == Success(SearchResult("ok", Some("2"), Some("2"), Some("1"), Some("2"), ["123", "456"]))
  {
    var kids := ExampleChildren();
    var doc := ExampleResponse().body;
    assert StatusElement(doc) == Some(kids[0]) && GetAttribute(kids[0], "value") == "ok" by {
      ExampleStatus();
    }
    ExampleEnvelope();
    assert AttributeValues(FindAll(doc, "catalogueRecord"), "id") == ["123", "456"] by { ExampleIds(); }
    SearchOfParts(ExampleResponse(), kids[0]);
  }

  /** A 200 response with a status element yields the envelope read off
      its document. */
  lemma SearchOfParts(resp: Response, s: Element)
    requires resp.code == 200 && StatusElement(resp.body) == Some(s)
    ensures RunLmsSearch(resp) ==
      Success(SearchResult(GetAttribute(s, "value"),
        TextOf(resp.body, "nofRecords"), TextOf(resp.body, "nofRecordsTotal"),
        TextOf(resp.body, "startNo"), TextOf(resp.body, "stopNo"),
        AttributeValues(FindAll(resp.body, "catalogueRecord"), "id")))
  {
  }
}
