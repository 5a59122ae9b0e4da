/** Id chunking in `AlmaSearchClient::catalogue_record_detail`: the record
    ids are cut into slices of at most 50 and each slice becomes one request
    whose `catalogueRecordKey` parameter is the comma-join of its ids. */
module Chunking {
  import opened Arith

  /** The slice length used by the client. */
  const ChunkSize: nat := 50

  /** The concatenation of a sequence of slices. */
  function Flatten<T>(ss: seq<seq<T>>): seq<T> {
    if ss == [] then [] else ss[0] + Flatten(ss[1..])
  }

  /** The partition of `ids` into consecutive slices: every slice is
      non-empty and at most `ChunkSize` long, all but the last are full,
      there are ceil(n/50) of them, and together they spell out `ids`. */
  function Chunks(ids: seq<string>): (r: seq<seq<string>>)
    ensures |r| == (|ids| + ChunkSize - 1) / ChunkSize
    ensures forall i :: 0 <= i < |r| ==> 0 < |r[i]| <= ChunkSize
    ensures forall i :: 0 <= i < |r| - 1 ==> |r[i]| == ChunkSize
    ensures Flatten(r) == ids
    decreases |ids|
  {
    if ids == [] then []
    else if |ids| <= ChunkSize then
      assert Flatten([ids]) == ids + Flatten([]);
      [ids]
    else
      var rest := Chunks(ids[ChunkSize..]);
      assert ([ids[..ChunkSize]] + rest)[1..] == rest;
      assert ids[..ChunkSize] + ids[ChunkSize..] == ids;
      [ids[..ChunkSize]] + rest
  }

  /** `array_slice($alma_ids, $offset, 50)`: up to 50 ids from `offset`,
      nothing once `offset` is past the end. */
  function Slice(ids: seq<string>, offset: nat): (r: seq<string>)
    ensures |r| <= ChunkSize
    ensures offset < |ids| ==> 0 < |r| && offset + |r| <= |ids| && r == ids[offset..offset + |r|]
    ensures offset < |ids| ==> |r| == ChunkSize || offset + |r| == |ids|
    ensures offset >= |ids| ==> r == []
  {
    if offset >= |ids| then [] else ids[offset..Min(offset + ChunkSize, |ids|)]
  }

  /** PHP `join(',', $parts)`: the parts in order with one comma between
      neighbours, so the first part is a prefix and the length is the parts'
      total length plus one per separator. */
  function Join(parts: seq<string>): (r: string)
    ensures parts == [] ==> r == ""
    ensures parts != [] ==> parts[0] <= r && |r| + 1 == |Flatten(parts)| + |parts|
  {
    if parts == [] then ""
    else if |parts| == 1 then parts[0]
    else parts[0] + "," + Join(parts[1..])
  }

  /** Splitting at every comma: the inverse of `Join` on comma-free parts. */
  function Split(s: string): (r: seq<string>)
    ensures |r| > 0
    decreases |s|
  {
    if |s| == 0 then [""]
    else if s[0] == ',' then [""] + Split(s[1..])
    else
      var rest := Split(s[1..]);
      [[s[0]] + rest[0]] + rest[1..]
  }

  /** The query parameters of one chunk request. */
  function KeyParam(slice: seq<string>): map<string, string> {
    map["catalogueRecordKey" := Join(slice)]
  }

  /** The parameter list handed to `multi_request`, one entry per slice. */
  function ChunkParams(ids: seq<string>): (r: seq<map<string, string>>)
    ensures |r| == |Chunks(ids)|
    ensures forall i :: 0 <= i < |r| ==> r[i] == KeyParam(Chunks(ids)[i])
  {
    var cs := Chunks(ids);
    seq(|cs|, i requires 0 <= i < |cs| => KeyParam(cs[i]))
  }

  /** The `while (count($alma_ids) > $offset)` loop of `catalogue_record_detail`, proved to
      build exactly one `catalogueRecordKey` per slice of `Chunks`, in order. */
  method BuildChunkParams(ids: seq<string>) returns (params: seq<map<string, string>>)
    ensures |params| == (|ids| + ChunkSize - 1) / ChunkSize
    ensures params == ChunkParams(ids)
  {
    params := [];
    var offset: nat := 0;
    while |ids| > offset
      invariant offset == ChunkSize * |params|
      invariant |params| > 0 ==> offset - ChunkSize < |ids|
      invariant forall i :: 0 <= i < |params| ==> params[i] == KeyParam(Slice(ids, ChunkSize * i))
    {
      params := params + [KeyParam(Slice(ids, offset))];
      offset := offset + ChunkSize;
    }
    forall i | 0 <= i < |params|
      ensures params[i] == KeyParam(Chunks(ids)[i])
    {
      ChunkIsSlice(ids, i);
    }
  }

  /** Slice `i` of the partition starts at id `50 * i`. */
  lemma {:induction false} ChunkIsSlice(ids: seq<string>, i: nat)
    requires i < |Chunks(ids)|
    ensures Chunks(ids)[i] == Slice(ids, ChunkSize * i)
    decreases |ids|
  {
    if |ids| > ChunkSize && i > 0 {
      var tail := ids[ChunkSize..];
      ChunkIsSlice(tail, i - 1);
      assert Chunks(ids)[i] == Chunks(tail)[i - 1];
      assert Slice(tail, ChunkSize * (i - 1)) == Slice(ids, ChunkSize * i);
    }
  }

  /** Splitting a part followed by a comma yields that part first. */
  lemma {:induction false} SplitAfterPart(p: string, t: string)
    requires ',' !in p
    ensures Split(p + "," + t) == [p] + Split(t)
    decreases |p|
  {
    if p == [] {
      assert p + "," + t == "," + t;
      assert ("," + t)[1..] == t;
    } else {
      SplitAfterPart(p[1..], t);
      assert (p + "," + t)[1..] == p[1..] + "," + t;
      assert [p[0]] + p[1..] == p;
    }
  }

  lemma {:induction false} SplitCommaFree(p: string)
    requires ',' !in p
    ensures Split(p) == [p]
    decreases |p|
  {
    if p != [] {
      SplitCommaFree(p[1..]);
      assert [p[0]] + p[1..] == p;
    }
  }

  /** Join/Split round trip: a non-empty list of comma-free ids is recovered
      from its `catalogueRecordKey`. */
  lemma {:induction false} SplitJoin(parts: seq<string>)
    requires |parts| > 0
    requires forall k :: 0 <= k < |parts| ==> ',' !in parts[k]
    ensures Split(Join(parts)) == parts
    decreases |parts|
  {
    if |parts| == 1 {
      SplitCommaFree(parts[0]);
    } else {
      SplitJoin(parts[1..]);
      SplitAfterPart(parts[0], Join(parts[1..]));
      assert [parts[0]] + parts[1..] == parts;
    }
  }

  /** Every chunk's key decodes back to exactly that chunk's ids, and the
      chunks in order give back the whole id list. */
  lemma ChunkKeysRecoverIds(ids: seq<string>)
    requires forall k :: 0 <= k < |ids| ==> ',' !in ids[k]
    ensures forall i :: 0 <= i < |ChunkParams(ids)| ==>
              Split(ChunkParams(ids)[i]["catalogueRecordKey"]) == Chunks(ids)[i]
    ensures Flatten(Chunks(ids)) == ids
  {
    var cs := Chunks(ids);
    forall i | 0 <= i < |cs|
      ensures Split(Join(cs[i])) == cs[i]
    {
      ChunkIsSlice(ids, i);
      var c := cs[i];
      forall k | 0 <= k < |c| ensures ',' !in c[k] {
        assert c[k] == ids[ChunkSize * i + k];
      }
      SplitJoin(c);
    }
  }

  /** No ids, no requests; 120 ids make slices of 50, 50 and 20. */
  lemma ChunkSizesExample(ids: seq<string>)
    requires |ids| == 0 || |ids| == 120
    ensures |ids| == 0 ==> Chunks(ids) == []
    ensures |ids| == 120 ==>
              |Chunks(ids)| == 3 && |Chunks(ids)[0]| == 50 && |Chunks(ids)[1]| == 50 && |Chunks(ids)[2]| == 20
  {
    if |ids| == 120 {
      var t1 := ids[ChunkSize..];
      var t2 := t1[ChunkSize..];
      assert |t2| == 20;
      assert Chunks(t2) == [t2];
      assert Chunks(t1) == [t1[..ChunkSize]] + [t2];
      assert Chunks(ids) == [ids[..ChunkSize]] + Chunks(t1);
    }
  }
}
