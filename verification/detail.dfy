/** Record hydration, `AlmaSearchClient::catalogue_record_detail`: the ids
    are chunked into `catalogueRecordKey` requests, the batch is fetched
    without status checking, and every `detailCatalogueRecord` of every
    returned document is parsed and filed under its `alma_id`.

    The batch is the corrected `Status.MultiRequest`, which returns every
    document. As written, `multi_request` keeps only the last document
    (line 138), so the `foreach ($docs as $doc)` over its result would walk
    a single DOMDocument rather than a list of documents. */
module Detail {
  import opened Wrappers
  import opened Dom
  import opened Status
  import opened Chunking
  import opened CatalogueRecord

  /** The transport collaborator behind `multi_request`: the response
      bodies it returns for a list of parameter sets. */
  type Transport = seq<map<string, string>> -> seq<Document>

  function ParseRecords(items: seq<Element>): seq<Record> {
    if items == [] then [] else [ParseRecord(items[0])] + ParseRecords(items[1..])
  }

  /** The parsed records of all documents: document by document, each
      document's `detailCatalogueRecord` elements in document order. */
  function RecordsOf(docs: seq<Document>): seq<Record> {
    if docs == [] then [] else ParseRecords(FindAll(docs[0], "detailCatalogueRecord")) + RecordsOf(docs[1..])
  }

  /** `$data['records'][$record['alma_id']] = $record` over `recs` in order,
      starting from `m`. */
  function FileById(m: map<string, Record>, recs: seq<Record>): (r: map<string, Record>)
    ensures m.Keys <= r.Keys
    ensures recs != [] ==> var last := recs[|recs| - 1]; last.almaId in r && r[last.almaId] == last
    decreases |recs|
  {
    if recs == [] then m else FileById(m[recs[0].almaId := recs[0]], recs[1..])
  }

  /** `recs[i]` is the last record carrying its id. */
  predicate LastWithId(recs: seq<Record>, i: int)
    requires 0 <= i < |recs|
  {
    forall j :: i < j < |recs| ==> recs[j].almaId != recs[i].almaId
  }

  /** `m` files the records `recs` by id: its keys are exactly their ids,
      and each id holds the last record carrying it. */
  ghost predicate FiledById(m: map<string, Record>, recs: seq<Record>) {
    && (forall k :: k in m <==> exists i :: 0 <= i < |recs| && recs[i].almaId == k)
    && (forall i :: 0 <= i < |recs| && LastWithId(recs, i) ==> m[recs[i].almaId] == recs[i])
  }

  /** Filing by id: the keys are the ids of the records (plus the keys
      already present), and each id holds the LAST record carrying it, so a
      later duplicate overwrites an earlier one. */
  lemma {:induction false} FileByIdSpec(m: map<string, Record>, recs: seq<Record>)
    ensures forall k :: k in FileById(m, recs) <==>
              k in m || exists i :: 0 <= i < |recs| && recs[i].almaId == k
    ensures forall i :: 0 <= i < |recs| && LastWithId(recs, i) ==>
              FileById(m, recs)[recs[i].almaId] == recs[i]
    decreases |recs|
  {
    if recs != [] {
      var r := recs[0];
      var m' := m[r.almaId := r];
      FileByIdSpec(m', recs[1..]);
      forall k
        ensures k in FileById(m, recs) <==> k in m || exists i :: 0 <= i < |recs| && recs[i].almaId == k
      {
        if exists i :: 0 <= i < |recs[1..]| && recs[1..][i].almaId == k {
          var i :| 0 <= i < |recs[1..]| && recs[1..][i].almaId == k;
          assert recs[i + 1].almaId == k;
        }
        if exists i :: 0 <= i < |recs| && recs[i].almaId == k {
          var i :| 0 <= i < |recs| && recs[i].almaId == k;
          if i > 0 {
            assert recs[1..][i - 1].almaId == k;
          }
        }
      }
      forall i | 0 <= i < |recs| && LastWithId(recs, i)
        ensures FileById(m, recs)[recs[i].almaId] == recs[i]
      {
        if i > 0 {
          assert LastWithId(recs[1..], i - 1);
        } else {
          FileByIdKeeps(m', recs[1..], r.almaId);
        }
      }
    }
  }

  /** An id no later record carries keeps its entry. */
  lemma {:induction false} FileByIdKeeps(m: map<string, Record>, recs: seq<Record>, k: string)
    requires k in m
    requires forall j :: 0 <= j < |recs| ==> recs[j].almaId != k
    ensures k in FileById(m, recs) && FileById(m, recs)[k] == m[k]
    decreases |recs|
  {
    if recs != [] {
      FileByIdKeeps(m[recs[0].almaId := recs[0]], recs[1..], k);
    }
  }

  /** `catalogue_record_detail($alma_ids)` given the transport, on top of
      the corrected batch: the batch is requested with status checking OFF,
      so it fails only when the transport returns nothing; otherwise the
      result files every parsed record under its id, the last one of an id
      winning. */
  function CatalogueRecordDetail(ids: seq<string>, transport: Transport): (r: Result<map<string, Record>, Error>)
    ensures r.Success? <==> |transport(ChunkParams(ids))| > 0
    ensures r.Failure? ==> r.error == NoResponses
    ensures r.Success? ==> FiledById(r.value, RecordsOf(transport(ChunkParams(ids))))
  {
    var docs :- MultiRequest(transport(ChunkParams(ids)), false);
    FileByIdSpec(map[], RecordsOf(docs));
    Success(FileById(map[], RecordsOf(docs)))
  }

  /** Because the batch is fetched with checking off, a chunk whose status
      is not "ok" does not fail the call, although the same documents would
      fail a checked batch. */
  lemma StatusNotCheckedForDetails(ids: seq<string>, transport: Transport)
    requires |transport(ChunkParams(ids))| > 0
    requires exists i :: 0 <= i < |transport(ChunkParams(ids))| && !IsOk(transport(ChunkParams(ids))[i])
    ensures CatalogueRecordDetail(ids, transport).Success?
    ensures MultiRequest(transport(ChunkParams(ids)), true).Failure?
  {
  }
}
