# AlmaSearchClient response processing, in Dafny

This project models the response-processing core of `AlmaSearchClient`, a PHP
client for the Axiell Alma library webservice. It covers:

- the embedded `status` check of `request` and `multi_request`;
- the chunking of record ids into `catalogueRecordKey` requests of at most 50 ids;
- search-id extraction in `run_lms_search`;
- parsing of `detailCatalogueRecord` elements into records;
- holding extraction with PHP's `(int)` cast;
- the periodical year -> issue holdings and their per-issue availability aggregates;
- filing records by `alma_id`;
- the logging filter for sensitive parameters;
- the base-URL check of the constructor.

The DOM is an immutable tree, `Dom.Element(name, attrs, children, text)`.
`GetAttribute` returns `""` for an absent attribute, as DOM does.
`ElementsByTagName` walks the subtree below an element in pre-order, and the
element itself is excluded. `FindAll` is the document-level search, where the
document element is included. `text` stands for the `nodeValue` the search
reads for its paging envelope. Exceptions become `Wrappers.Result` failures
carrying a `Status.Error`.

Modules: `Wrappers`, `Dom`, `Status` (request / multi_request), `Chunking`,
`PhpInt` (the `(int)` cast), `Holdings`, `Periodical`, `CatalogueRecord`,
`Search`, `Detail`, `ParamFilter`, `Client`.

Behaviour of the code worth knowing, which the model follows:

- `catalogue_record_detail` calls `multi_request` with checking off (line 248).
  A chunk whose status is not "ok" does not fail the detail call, because line
  248 passes `FALSE`. `Detail.StatusNotCheckedForDetails` states this.
- `catalogue_record_detail` is modelled on top of the corrected batch
  (`Status.MultiRequest`, see "## Findings"). As written, line 138 hands the
  `foreach ($docs as $doc)` at line 254 a single DOMDocument instead of a
  list of documents.
- The non-periodical path collects every `holding` descendant
  (`getElementsByTagName`), not only direct children.
- `multi_request` never checks a per-response HTTP code. An empty transport
  result fails with `Status.Error.NoResponses`.
- For an issue without holdings, `reservable` is read from a missing
  `$holdings[0]`, which PHP gives as null. The model gives `None` for it.
- The search envelope fields stay text (`nodeValue`), not integers.

## Model

| member | source | states |
|---|---|---|
| Dom.GetAttribute | lib/AlmaSearchClient/AlmaSearchClient.class.php:356-370 | An attribute that is present is returned as is; an absent attribute reads as "". |
| Dom.ElementsByTagName | lib/AlmaSearchClient/AlmaSearchClient.class.php:285-286 | Every element the tag search below an element returns carries that tag. |
| Dom.ElementsByTagNameIsFilteredDescendants | lib/AlmaSearchClient/AlmaSearchClient.class.php:354 | The tag search below an element returns exactly the descendants with that tag, in pre-order, which is document order. The element itself is not a candidate. |
| Dom.FindAll | lib/AlmaSearchClient/AlmaSearchClient.class.php:224 | Every element the document-level search returns carries that tag. |
| Dom.FindAllIsFiltered | lib/AlmaSearchClient/AlmaSearchClient.class.php:73 | The document-level search returns exactly the document element and its pre-order descendants that carry the tag, in document order. |
| Status.CheckStatus | lib/AlmaSearchClient/AlmaSearchClient.class.php:73-81 | A document is accepted iff checking is off or its first `status` element's `value` is exactly "ok". Any other value fails with `CommunicationError` carrying that element's `key`. A checked document without a status element fails. |
| Status.StatusKeyIsData | lib/AlmaSearchClient/AlmaSearchClient.class.php:76-81 | The key never steers the outcome. Every non-"ok" value fails with `CommunicationError(key)` for any key, the empty key included. "ok" never fails, whatever the key. |
| Status.Request | lib/AlmaSearchClient/AlmaSearchClient.class.php:67-85 | A non-200 code fails with `HttpError(code, error)` whether or not checking is on. A 200 response gets exactly the status check's verdict: success with the body iff checking is off or the status is "ok", otherwise the check's error. |
| Status.CheckAll | lib/AlmaSearchClient/AlmaSearchClient.class.php:131-147 | Over a sequence of bodies: success iff every body passes, in which case all are returned in order. Otherwise the error is that of the first failing body in iteration order. |
| Status.MultiRequest | lib/AlmaSearchClient/AlmaSearchClient.class.php:129-151 | The corrected batch: an empty transport result fails. Otherwise it succeeds iff every document passes, returns all documents in order, and raises the first failure. |
| Status.MultiRequestAsWritten | lib/AlmaSearchClient/AlmaSearchClient.class.php:137-138 | The batch as written: it fails exactly when the corrected batch fails, but on success it yields only the last document. |
| Status.OverwriteLosesEarlierDocuments | lib/AlmaSearchClient/AlmaSearchClient.class.php:138 | Two accepted, distinct documents: as written, the batch returns only the second. The corrected batch returns both. |
| Status.UncheckedAcceptsEverything | lib/AlmaSearchClient/AlmaSearchClient.class.php:137 | With checking off, any non-empty batch succeeds with all its documents. |
| Chunking.Chunks | lib/AlmaSearchClient/AlmaSearchClient.class.php:236-243 | The partition of the ids has ceil(n/50) slices. Each slice is non-empty with at most 50 ids, all but the last are full, and their concatenation is the id list. |
| Chunking.Slice | lib/AlmaSearchClient/AlmaSearchClient.class.php:238 | At most 50 ids. From an offset inside the list: a non-empty run of consecutive ids starting there, either 50 long or reaching the end. From an offset past the end: nothing. |
| Chunking.Join | lib/AlmaSearchClient/AlmaSearchClient.class.php:240 | No parts join to "". Otherwise the first part is a prefix, and the length is the parts' total length plus one comma between each pair of neighbours. |
| Chunking.BuildChunkParams | lib/AlmaSearchClient/AlmaSearchClient.class.php:235-243 | The offset loop builds ceil(n/50) parameter sets, one per slice of the partition in order. Set i's `catalogueRecordKey` is the comma-join of slice i. |
| Chunking.ChunkIsSlice | lib/AlmaSearchClient/AlmaSearchClient.class.php:238 | Slice i of the partition is `array_slice(ids, 50*i, 50)`. |
| Chunking.SplitJoin | lib/AlmaSearchClient/AlmaSearchClient.class.php:240 | Splitting the comma-join of a non-empty list of comma-free ids at the commas gives back the list. |
| Chunking.ChunkKeysRecoverIds | lib/AlmaSearchClient/AlmaSearchClient.class.php:238-241 | For comma-free ids, each request's key decodes to exactly its slice's ids in order, and the slices in order concatenate to the original ids. |
| Chunking.ChunkSizesExample | lib/AlmaSearchClient/AlmaSearchClient.class.php:237-243 | No ids give no requests. 120 ids give slices of 50, 50 and 20. |
| PhpInt.CastSigned | lib/AlmaSearchClient/AlmaSearchClient.class.php:358-368 | After any leading blanks, a '-' or '+' followed by digits reads as those digits' value, negated for '-'. Whatever follows the digits is ignored, and a sign with no digit after it reads 0. |
| PhpInt.CastUnsigned | lib/AlmaSearchClient/AlmaSearchClient.class.php:358-368 | After any leading blanks, a run of digits reads as its decimal value, and whatever follows the digits is ignored. |
| PhpInt.CastNoNumber | lib/AlmaSearchClient/AlmaSearchClient.class.php:358-368 | Text whose first non-blank characters are neither a digit nor a sign followed by a digit reads 0. This includes the empty text of a missing attribute. |
| PhpInt.FromIntToInt | lib/AlmaSearchClient/AlmaSearchClient.class.php:368 | The cast reads every integer's canonical decimal spelling back to that integer. |
| PhpInt.CastExamples | lib/AlmaSearchClient/AlmaSearchClient.class.php:358-361 | "" (a missing attribute) and "abc" cast to 0. |
| PhpInt.CastLeadingNumber | lib/AlmaSearchClient/AlmaSearchClient.class.php:358-361 | " 12abc" casts to 12: leading blanks are skipped and trailing text is ignored. |
| Holdings.ParseHolding | lib/AlmaSearchClient/AlmaSearchClient.class.php:355-371 | Each of the ten string fields is the attribute it is read from, "" when absent. Each of the five counts is the PHP `(int)` cast of its attribute, so 0 when the attribute is absent. |
| Holdings.ExtractHoldings | lib/AlmaSearchClient/AlmaSearchClient.class.php:351-375 | One holding per `holding` element among the element's descendants, in document order. Holding i is read from the i-th such element. |
| Holdings.MissingAttributesDefault | lib/AlmaSearchClient/AlmaSearchClient.class.php:366-368 | A holding without `nofAvailableForLoan` has availability 0, whatever its other attributes. One without `branchId` has branch "", whatever its counts. |
| Holdings.CanonicalCountsReadBack | lib/AlmaSearchClient/AlmaSearchClient.class.php:368 | An availability attribute written as a decimal integer is read as that integer. |
| Periodical.AddHolding | lib/AlmaSearchClient/AlmaSearchClient.class.php:328-336 | One holding adds its availability, when positive, to the total and to its own branch's entry, creating that entry if needed. Every other branch is untouched. A holding with availability 0 or less changes nothing, and `reservable` is never touched. |
| Periodical.AddAll | lib/AlmaSearchClient/AlmaSearchClient.class.php:328-337 | The loop over an issue's holdings adds the sum of the positive availabilities to the total. It keeps every existing branch entry and leaves `reservable` alone. |
| Periodical.Aggregate | lib/AlmaSearchClient/AlmaSearchClient.class.php:321-337 | An issue's `available_count` is the sum of its positive availabilities. `reservable` is the first holding's, or none for an issue without holdings. |
| Periodical.AddAllSpec | lib/AlmaSearchClient/AlmaSearchClient.class.php:328-337 | The aggregation loop, run from any starting aggregate:<br>- the total grows by the sum of positive availabilities;<br>- each branch entry grows by that branch's positive sum;<br>- a branch entry exists iff it already existed or some holding there is available;<br>- the branch entries' sum grows by the same amount as the total;<br>- `reservable` is untouched. |
| Periodical.AggregateTotal | lib/AlmaSearchClient/AlmaSearchClient.class.php:321-337 | The issue aggregate:<br>- `available_count` is the sum of the availabilities that are positive;<br>- the branch values sum to that total;<br>- `reservable` is the first holding's, or none for an empty issue. |
| Periodical.AggregateBranches | lib/AlmaSearchClient/AlmaSearchClient.class.php:329-336 | A branch is listed iff some holding there has positive availability, so a holding with zero or negative availability never creates an entry. Each branch value is the positive sum at that branch. |
| Periodical.SumValuesUpdate | lib/AlmaSearchClient/AlmaSearchClient.class.php:331-335 | Creating or incrementing one branch entry changes the sum of the branch values by exactly the difference. |
| Periodical.UnavailableAddsNothing | lib/AlmaSearchClient/AlmaSearchClient.class.php:329 | Appending a holding with non-positive availability leaves the aggregate unchanged. |
| Periodical.ContainersVisits | lib/AlmaSearchClient/AlmaSearchClient.class.php:314-318 | The three nested loops visit a (year, issue) pair iff some `compositeHoldings` container has a child whose `value` is the year, and that child has a child whose `value` is the issue. |
| Periodical.Store | lib/AlmaSearchClient/AlmaSearchClient.class.php:320-339 | Storing one issue keeps the two maps consistent. Afterwards its (year, issue) key holds exactly its holdings in `holdings` and the aggregate of those holdings in `issues`. |
| Periodical.StoreFrame | lib/AlmaSearchClient/AlmaSearchClient.class.php:320 | Storing one issue leaves the holdings under every other (year, issue) key unchanged. |
| Periodical.StoreAllKeeps | lib/AlmaSearchClient/AlmaSearchClient.class.php:314-341 | A (year, issue) key that no later issue carries keeps the holdings it had. |
| Periodical.StoreAllLastWins | lib/AlmaSearchClient/AlmaSearchClient.class.php:320 | After a walk, each (year, issue) key holds the holdings of the last issue in walk order carrying those labels. |
| Periodical.StoreAll | lib/AlmaSearchClient/AlmaSearchClient.class.php:314-341 | Storing a sequence of issues keeps the holdings and issues maps consistent. |
| Periodical.StoreAllSpec | lib/AlmaSearchClient/AlmaSearchClient.class.php:320-339 | Storing issues in order keeps the holdings and issues maps consistent: same years, same issues per year, each issue's aggregate computed from its holdings. A (year, issue) key is present iff it was present before or some visited issue carries it. |
| Periodical.PeriodicalHoldings | lib/AlmaSearchClient/AlmaSearchClient.class.php:313-342 | The periodical holdings and issues maps are consistent with each other. |
| Periodical.PeriodicalSpec | lib/AlmaSearchClient/AlmaSearchClient.class.php:314-342 | For a periodical, every (year, issue) in `holdings` is in `issues` and vice versa, with matching aggregates. The keys are exactly the (year, issue) label pairs of the tree below the record's `compositeHoldings` elements. Each key holds the holdings of the last issue element, in walk order, that carries its labels. |
| Periodical.LaterIssueWins | lib/AlmaSearchClient/AlmaSearchClient.class.php:320 | A later issue element with the same year and issue labels replaces the earlier holdings. |
| Periodical.TwoBranchExample | lib/AlmaSearchClient/AlmaSearchClient.class.php:321-337 | Holdings with availability 3 at branch "A" and 0 at branch "B" aggregate to 3 with branches {"A": 3}, and `reservable` is the first holding's. |
| CatalogueRecord.ParseRecord | lib/AlmaSearchClient/AlmaSearchClient.class.php:266-346 | The id and the four record-level counts are the raw attribute text. The reservation flag is true iff the attribute is exactly "yes". The nine other scalar fields are their attributes' text. Each of the six list fields is the `value` list of its child tag. Holdings are flat, extracted from every `holding` descendant, iff the media class is not "periodical". Otherwise they are the periodical walk's nested shape, whose two maps are consistent. |
| CatalogueRecord.ReservationButtonIffYes | lib/AlmaSearchClient/AlmaSearchClient.class.php:270 | `show_reservation_button` is true iff the attribute is present and exactly "yes". "Yes", "no" and "" give false. |
| CatalogueRecord.RecordCountsAreRaw | lib/AlmaSearchClient/AlmaSearchClient.class.php:271-274 | The four record-level counts (`nofReservations`, `nofLoansYear`, `nofLoansTotal`, `nofAvailableForLoan`) are the attribute text without coercion. Each missing count stays "" rather than 0. |
| CatalogueRecord.MediaClassDispatch | lib/AlmaSearchClient/AlmaSearchClient.class.php:309-343 | A record has flat holdings iff its media class is not "periodical", and they are then the holdings extracted from the record, one per `holding` descendant. A periodical has the nested shape, whose holdings and issues maps are consistent. |
| CatalogueRecord.ChildValuesInDocumentOrder | lib/AlmaSearchClient/AlmaSearchClient.class.php:285-307 | The list collected for a tag holds the `value` attribute of each descendant with that tag, in pre-order, and is empty when there is none. |
| CatalogueRecord.ListsFollowDocumentOrder | lib/AlmaSearchClient/AlmaSearchClient.class.php:285-307 | A parsed record's authors, descriptions, isbns, languages, notes and titles are each the `value` attributes of the record's descendants with that tag, in document order. |
| Search.TextOf | lib/AlmaSearchClient/AlmaSearchClient.class.php:218-221 | An envelope field is present iff the document has an element with that tag. It is then the text of the first such element. |
| Search.RunLmsSearch | lib/AlmaSearchClient/AlmaSearchClient.class.php:215-228 | A non-200 response fails. Otherwise the search succeeds iff the document has a status element, whatever that element's value, and reports the value. `alma_ids` lists the `id` of each `catalogueRecord` in document order. |
| Search.TwoRecordSearch | lib/AlmaSearchClient/AlmaSearchClient.class.php:216-226 | A response with envelope 2/2/1/2 and records "123" and "456" yields status "ok", that envelope and ids ["123", "456"]. |
| Detail.FileById | lib/AlmaSearchClient/AlmaSearchClient.class.php:254-258 | Filing never drops a key already present, and the last record filed is stored under its own id. |
| Detail.FileByIdSpec | lib/AlmaSearchClient/AlmaSearchClient.class.php:254-258 | Filing records by `alma_id`: the keys are exactly the records' ids, and each id holds the last record carrying it, so a later duplicate overwrites an earlier one. |
| Detail.CatalogueRecordDetail | lib/AlmaSearchClient/AlmaSearchClient.class.php:234-260 | Built on the corrected batch `Status.MultiRequest`. The detail call fails only when the transport returns nothing. Otherwise its keys are the ids of the parsed records of all returned documents, each with the last record of that id. |
| Detail.StatusNotCheckedForDetails | lib/AlmaSearchClient/AlmaSearchClient.class.php:248 | A batch containing a non-"ok" document still yields records, though a checked batch of the same documents fails. |
| ParamFilter.FilterRequestParams | lib/AlmaSearchClient/AlmaSearchClient.class.php:178-194 | The key set is unchanged. A value whose key does not match the sensitive list under `in_array`'s loose comparison is unchanged. A matching value becomes the first min(len, 32) characters of the digest of value + salt. Before PHP 8 the key "0" matches too. |
| ParamFilter.ZeroKeyMatchesBeforePhp8 | lib/AlmaSearchClient/AlmaSearchClient.class.php:184 | The key "0" is an integer key in PHP. Before PHP 8 it loosely equals the sensitive names and is scrambled; from PHP 8 on it is kept. The five names are scrambled under both. |
| ParamFilter.ShortValuesKeepLength | lib/AlmaSearchClient/AlmaSearchClient.class.php:188 | Values of at most 32 characters keep their length. |
| ParamFilter.SameValueSameScramble | lib/AlmaSearchClient/AlmaSearchClient.class.php:185-188 | With the same salt, equal sensitive values scramble equally, whichever sensitive key holds them. |
| Client.StartsWithHttpIsPrefix | lib/AlmaSearchClient/AlmaSearchClient.class.php:24 | `stripos($url, 'http') === 0` holds iff the first four characters spell "http" up to ASCII case. A later occurrence does not count. |
| Client.NewClient | lib/AlmaSearchClient/AlmaSearchClient.class.php:23-29 | The base URL is kept iff its first four characters spell "http" in any case and the validator accepts it. Otherwise construction fails with the URL. |
| Client.SchemeCheckExamples | lib/AlmaSearchClient/AlmaSearchClient.class.php:24 | "HTTPS://x" passes. "ftp://x", " http://x", and a URL the validator rejects all fail. |
| Client.CaseInsensitive | lib/AlmaSearchClient/AlmaSearchClient.class.php:24 | For the same validator verdict, the prefix check ignores letter case: URLs whose first four characters agree up to case are accepted alike. |

## Left out

- HTTP transport (`drupal_http_request`, `curl_multi`, `get_curl_session`) and URL building with `url()`. Responses are parameters: a `Status.Response` for `request`, and a `Detail.Transport` function for the batch.
- The concurrent fan-out of `multi_request`. Its result is modelled as a sequence in iteration order.
- The search's query parameters (`searchText`, `searchType`, `startNo`, `nofRecords`). They only feed the transport.
- Timing (`microtime`), `watchdog` logging, `variable_get` configuration and the debug `file_put_contents` writes. These are side effects with no effect on results.
- XML parse failure. Bodies are taken as parsed documents.
- Text and whitespace nodes among `childNodes` of the year and issue containers. Only element children are modelled. On a text node, PHP's `getAttribute` call would be a fatal error.
- The `request_status` read at line 250 of an undefined `$doc`. Calling `getElementsByTagName` on an undefined variable is a fatal error in PHP, so as written `catalogue_record_detail` never returns. The model leaves the read out and returns the records.
- The real `md5` and the `mt_rand` salt. The digest function and the salt are parameters, and the digest is only assumed to be 32 characters long.
- `filter_var` URL validation. Its verdict is a boolean parameter of `Client.NewClient`.
- PhpInt.ToInt: covers leading whitespace, a sign and leading digits only. PHP also reads fractional and exponent forms ("1.5", "1e3") and caps values beyond 64 bits; neither is modelled.
- PHP stores numeric-string array keys ("2020") as integers. Keys are kept as strings here, which identifies the same entries.
- A list field (`authors` ...) with no matching element is left unset by PHP. It is the empty sequence here.
- A periodical without a `compositeHoldings` element leaves `holdings` and `issues` unset in PHP. Here both maps are empty.
- Byte-versus-character length in `strlen`/`substr`. Strings are sequences of characters.
- Insertion order of PHP arrays. The holdings, issues, branches and records are maps here, which have no order, so the order of years, issues, branches and records in the document is not kept. List fields and flat holdings are sequences and keep document order.
- Integer overflow in the aggregates. A sum beyond `PHP_INT_MAX` becomes a float in PHP; the model's integers are unbounded.
- ParamFilter.FilterRequestParams: values are strings. `multi_request` logs its list of parameter sets, whose values are arrays, and PHP turns those into the text "Array" with a notice. That case is not modelled.

## Findings

| source | as written | input that shows it | evidently intended | confidence | as-written member | corrected member |
|---|---|---|---|---|---|---|
| lib/AlmaSearchClient/AlmaSearchClient.class.php:138 | `$docs = $doc;` replaces the collected documents with each accepted one, so `multi_request` returns only the last document | two response bodies whose status is "ok" | append each document (`$docs[] = $doc`) so every chunk's records reach `catalogue_record_detail` | high; not executed | Status.MultiRequestAsWritten, Status.OverwriteLosesEarlierDocuments | Status.MultiRequest |
