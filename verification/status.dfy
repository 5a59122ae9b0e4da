/** Response checking in `AlmaSearchClient::request` and
    `AlmaSearchClient::multi_request`: the HTTP code check, the embedded
    `status` element check, and first-failure semantics over a batch. */
module Status {
  import opened Wrappers
  import opened Dom

  /** The client's failure kinds.
      - `InvalidBaseUrl`: the constructor's exception for a bad base URL;
      - `HttpError`: `AlmaSearchClientHTTPError` for a non-200 response;
      - `NoResponses`: the same exception class, raised by `multi_request`
        when the transport hands back no responses at all;
      - `CommunicationError`: `AlmaSearchClientCommunicationError` carrying
        the status element's `key` (possibly empty);
      - `MissingStatus`: the fatal error PHP raises when a checked document
        has no `status` element (`item(0)` is null). */
  datatype Error =
    | InvalidBaseUrl(url: string)
    | HttpError(code: int, detail: string)
    | NoResponses
    | CommunicationError(key: string)
    | MissingStatus

  /** What the transport collaborator returns for one request. The body is
      taken as already parsed; XML parse failure is not modelled. */
  datatype Response = Response(code: int, error: string, body: Document)

  /** The document's first `status` element, if it has one. */
  function StatusElement(doc: Document): (r: Option<Element>)
    ensures r.Some? ==> r.value.name == "status" && r.value in FindAll(doc, "status")
  {
    First(FindAll(doc, "status"))
  }

  /** The document's status indicator reads exactly "ok". */
  predicate IsOk(doc: Document) {
    var s := StatusElement(doc);
    s.Some? && GetAttribute(s.value, "value") == "ok"
  }

  /** The status check shared by `request` and `multi_request`: with checking
      off every document is accepted; otherwise it is accepted exactly when
      its status value is "ok", and any other value fails with the status
      key, whatever that key is. */
  function CheckStatus(doc: Document, checkStatus: bool): (r: Result<Document, Error>)
    ensures r.Success? <==> !checkStatus || IsOk(doc)
    ensures r.Success? ==> r.value == doc
    ensures r.Failure? && StatusElement(doc).Some? ==>
              r.error == CommunicationError(GetAttribute(StatusElement(doc).value, "key"))
    ensures r.Failure? && StatusElement(doc).None? ==> r.error == MissingStatus
  {
    if !checkStatus then Success(doc)
    else match StatusElement(doc)
      case None => Failure(MissingStatus)
      case Some(s) =>
        if GetAttribute(s, "value") == "ok" then Success(doc)
        else
          // `switch ($message) { case '': default: throw ... }`: both arms
          // raise the same exception, so the key is data, never control.
          Failure(CommunicationError(GetAttribute(s, "key")))
  }

  /** `request`: a non-200 code always fails, whatever `checkStatus` says;
      a 200 response is handed to the status check. */
  function Request(resp: Response, checkStatus: bool): (r: Result<Document, Error>)
    ensures resp.code != 200 ==> r == Failure(HttpError(resp.code, resp.error))
    ensures resp.code == 200 ==> r == CheckStatus(resp.body, checkStatus)
    ensures r.Success? <==> resp.code == 200 && (!checkStatus || IsOk(resp.body))
    ensures r.Success? ==> r.value == resp.body
  {
    if resp.code == 200 then CheckStatus(resp.body, checkStatus)
    else Failure(HttpError(resp.code, resp.error))
  }

  /** The documents of `bodies` checked in order: all of them when every
      one passes, otherwise the failure of the first one that does not. */
  function CheckAll(bodies: seq<Document>, checkStatus: bool): (r: Result<seq<Document>, Error>)
    ensures r.Success? <==> forall i :: 0 <= i < |bodies| ==> CheckStatus(bodies[i], checkStatus).Success?
    ensures r.Success? ==> r.value == bodies
    ensures r.Failure? ==>
              exists i :: 0 <= i < |bodies| && FirstFailure(bodies, checkStatus, i)
                          && r.error == CheckStatus(bodies[i], checkStatus).error
  {
    if bodies == [] then Success([])
    else match CheckStatus(bodies[0], checkStatus)
      case Failure(e) =>
        assert FirstFailure(bodies, checkStatus, 0);
        Failure(e)
      case Success(d) =>
        match CheckAll(bodies[1..], checkStatus)
        case Failure(e) =>
          ghost var j :| 0 <= j < |bodies[1..]| && FirstFailure(bodies[1..], checkStatus, j)
                         && e == CheckStatus(bodies[1..][j], checkStatus).error;
          assert FirstFailure(bodies, checkStatus, j + 1);
          Failure(e)
        case Success(ds) =>
          assert [d] + ds == bodies;
          Success([d] + ds)
  }

  /** Index `i` is the first body, in iteration order, that fails its check. */
  ghost predicate FirstFailure(bodies: seq<Document>, checkStatus: bool, i: int)
    requires 0 <= i < |bodies|
  {
    && CheckStatus(bodies[i], checkStatus).Failure?
    && forall j :: 0 <= j < i ==> CheckStatus(bodies[j], checkStatus).Success?
  }

  /** `multi_request` with the evidently intended `$docs[] = $doc`: an empty
      transport result is an HTTP error; otherwise every document is checked
      in order, the first failure is raised, and on success all documents are
      returned in order. */
  function MultiRequest(bodies: seq<Document>, checkStatus: bool): (r: Result<seq<Document>, Error>)
    ensures |bodies| == 0 ==> r == Failure(NoResponses)
    ensures r.Success? ==> r.value == bodies
    ensures r.Success? <==>
              |bodies| > 0 && forall i :: 0 <= i < |bodies| ==> CheckStatus(bodies[i], checkStatus).Success?
    ensures |bodies| > 0 && r.Failure? ==>
              exists i :: 0 <= i < |bodies| && FirstFailure(bodies, checkStatus, i)
                          && r.error == CheckStatus(bodies[i], checkStatus).error
  {
    if |bodies| == 0 then Failure(NoResponses) else CheckAll(bodies, checkStatus)
  }

  /** `multi_request` as written: line 138 assigns `$docs = $doc`, so each
      accepted document replaces the previous one and only the last
      survives. */
  function MultiRequestAsWritten(bodies: seq<Document>, checkStatus: bool): (r: Result<Document, Error>)
    ensures r.Success? <==> MultiRequest(bodies, checkStatus).Success?
    ensures r.Success? ==> r.value == bodies[|bodies| - 1]
  {
    if |bodies| == 0 then Failure(NoResponses)
    else match CheckAll(bodies, checkStatus)
      case Failure(e) => Failure(e)
      case Success(ds) => Success(ds[|ds| - 1])
  }

  /** A document whose only content is a status element with the given
      value and key. */
  function StatusDocument(value: string, key: string): Document {
    Document(Element("response", map[], [Element("status", map["value" := value, "key" := key], [], "")], ""))
  }

  /** The status key is data, not control: any non-"ok" value fails with
      `CommunicationError` carrying the key verbatim, the empty key included,
      and "ok" never fails, whatever the key. */
  lemma StatusKeyIsData(value: string, key: string)
    ensures value == "ok" ==> CheckStatus(StatusDocument(value, key), true) == Success(StatusDocument(value, key))
    ensures value != "ok" ==> CheckStatus(StatusDocument(value, key), true) == Failure(CommunicationError(key))
  {
    var doc := StatusDocument(value, key);
    var s := doc.root.children[0];
    assert ElementsByTagName(s, "status") == [];
    assert [s][1..] == [];
    assert TagsInForest([s], "status") == [s];
    assert FindAll(doc, "status") == [s];
  }

  /** With checking off, nothing about the status element matters. */
  lemma UncheckedAcceptsEverything(bodies: seq<Document>)
    requires |bodies| > 0
    ensures MultiRequest(bodies, false) == Success(bodies)
  {
  }

  /** Line 138 loses documents: with two accepted documents the as-written
      batch returns only the second, while the corrected one returns both. */
  lemma OverwriteLosesEarlierDocuments()
    ensures var a := StatusDocument("ok", "first");
            var b := StatusDocument("ok", "second");
            && MultiRequestAsWritten([a, b], true) == Success(b)
            && MultiRequest([a, b], true) == Success([a, b])
            && a != b
  {
    var a := StatusDocument("ok", "first");
    var b := StatusDocument("ok", "second");
    StatusKeyIsData("ok", "first");
    StatusKeyIsData("ok", "second");
    assert [a, b][1..] == [b];
    assert [b][1..] == [];
    assert CheckAll([b], true) == Success([b]);
    assert CheckAll([a, b], true) == Success([a, b]);
    assert MultiRequestAsWritten([a, b], true) == Success(b);
    assert a.root.children[0].attrs["key"] != b.root.children[0].attrs["key"];
  }
}
