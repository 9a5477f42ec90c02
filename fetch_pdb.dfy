/**
 * The hit filter of `fetch_recent_pdb_entries` (src/fetch_pdb.py): the parsed
 * search response's `entries` are turned into `{pdb_id, pubmed_id}` records,
 * skipping hits without an id and dropping hits without PubMed ids.
 */
module FetchPdb {
  import opened PyJson
  import opened Comprehension

  /** One emitted record: `pdb_id` and `pubmed_id` exactly as the hit carried them. */
  datatype PdbEntry = PdbEntry(pdbId: Json, pubmedIds: Json)

  /** The body of the loop for one hit: skip (None), emit (Some), or raise. */
  function HitEntry(hit: Json): Result<Option<PdbEntry>> {
    var pdbId :- Get(hit, "id", JNull);
    if !Truthy(pdbId) then Ok(None)
    else
      var fields := Lookup(hit.fields, "fields", EmptyObject);
      var pubmedIds :- Get(fields, "PUBMED", EmptyArray);
      if Truthy(pubmedIds) then Ok(Some(PdbEntry(pdbId, pubmedIds))) else Ok(None)
  }

  /** The hits the loop runs over: `data.get('entries', [])`. */
  function Hits(data: Json): Result<seq<Json>> {
    var entries :- Get(data, "entries", EmptyArray);
    Members(entries)
  }

  /** The list of records the loop builds from the parsed response. */
  function RecentEntries(data: Json): Result<seq<PdbEntry>> {
    var hits :- Hits(data);
    Collect(hits, HitEntry)
  }

  /** The hit loop, statement by statement: skip, drop or append a record. */
  method FetchRecentPdbEntries(data: Json) returns (r: Result<seq<PdbEntry>>)
    ensures r == RecentEntries(data)
  {
    var hits :- Hits(data);
    var entries: seq<PdbEntry> := [];
    for i := 0 to |hits|
      invariant Collect(hits[..i], HitEntry) == Ok(entries)
    {
      CollectStep(hits, HitEntry, i);
      if HitEntry(hits[i]).Err? {
        CollectStopsAt(hits, HitEntry, i + 1);
      }
      var hit := hits[i];
      var pdbId :- Get(hit, "id", JNull);
      if !Truthy(pdbId) {
        continue;
      }
      var fields := Lookup(hit.fields, "fields", EmptyObject);
      var pubmedIds :- Get(fields, "PUBMED", EmptyArray);
      if Truthy(pubmedIds) {
        entries := entries + [PdbEntry(pdbId, pubmedIds)];
      }
    }
    assert hits[..|hits|] == hits;
    r := Ok(entries);
  }

  /** What the loop body decides for one hit, in terms of the hit's own fields. */
  lemma HitDecision(hit: Json)
    ensures HitEntry(hit).Err? <==>
      !hit.JObj? ||
      (Truthy(Lookup(hit.fields, "id", JNull)) && !Lookup(hit.fields, "fields", EmptyObject).JObj?)
    ensures HitEntry(hit).Ok? && HitEntry(hit).value.Some? <==>
      hit.JObj? && "id" in hit.fields && Truthy(hit.fields["id"]) &&
      "fields" in hit.fields && hit.fields["fields"].JObj? &&
      "PUBMED" in hit.fields["fields"].fields && Truthy(hit.fields["fields"].fields["PUBMED"])
    ensures HitEntry(hit).Ok? && HitEntry(hit).value.Some? ==>
      HitEntry(hit).value.value == PdbEntry(hit.fields["id"], hit.fields["fields"].fields["PUBMED"])
  {
  }

  /** A hit that is a dict without a truthy `id` is skipped: it changes nothing wherever it stands. */
  lemma SkippedHitContributesNothing(before: seq<Json>, hit: Json, after: seq<Json>)
    requires hit.JObj? && !Truthy(Lookup(hit.fields, "id", JNull))
    ensures HitEntry(hit) == Ok(None)
    ensures Collect(before + [hit] + after, HitEntry) == Collect(before + after, HitEntry)
  {
    CollectSkips(before, hit, after, HitEntry);
  }

  /** A hit with an id but no `fields`, or no or empty `PUBMED`, is dropped: it changes nothing wherever it stands. */
  lemma UnpublishedHitIsDropped(before: seq<Json>, hit: Json, after: seq<Json>)
    requires hit.JObj?
    requires "fields" !in hit.fields ||
      (hit.fields["fields"].JObj? && !Truthy(Lookup(hit.fields["fields"].fields, "PUBMED", EmptyArray)))
    ensures HitEntry(hit) == Ok(None)
    ensures Collect(before + [hit] + after, HitEntry) == Collect(before + after, HitEntry)
  {
    CollectSkips(before, hit, after, HitEntry);
  }

  /**
   * Every record carries a truthy id and a truthy PubMed value; the records
   * are, in hit order, exactly the hits the body emits for, each with that
   * hit's `id` and `fields.PUBMED` unchanged.
   */
  lemma {:induction false} RecentEntriesAreTheEmittingHits(data: Json)
    requires RecentEntries(data).Ok?
    ensures Hits(data).Ok?
    ensures var hits, out, idx := Hits(data).value, RecentEntries(data).value, Kept(Hits(data).value, HitEntry);
      && |out| == |idx| <= |hits|
      && (forall i :: 0 <= i < |out| ==> Truthy(out[i].pdbId) && Truthy(out[i].pubmedIds))
      && (forall i :: 0 <= i < |out| ==>
            hits[idx[i]].JObj? && out[i].pdbId == hits[idx[i]].fields["id"] &&
            out[i].pubmedIds == hits[idx[i]].fields["fields"].fields["PUBMED"])
      && (forall j :: 0 <= j < |hits| ==> (j in idx <==> HitEntry(hits[j]).Ok? && HitEntry(hits[j]).value.Some?))
  {
    var hits := Hits(data).value;
    CollectKeeps(hits, HitEntry);
    var out, idx := RecentEntries(data).value, Kept(hits, HitEntry);
    forall i | 0 <= i < |out|
      ensures Truthy(out[i].pdbId) && Truthy(out[i].pubmedIds)
      ensures hits[idx[i]].JObj? && out[i].pdbId == hits[idx[i]].fields["id"]
      ensures out[i].pubmedIds == hits[idx[i]].fields["fields"].fields["PUBMED"]
    {
      HitDecision(hits[idx[i]]);
    }
  }

  /** The loop finishes unless some hit raises; it then raises with the first such hit's exception. */
  lemma RecentEntriesRaises(data: Json)
    requires Hits(data).Ok?
    ensures RecentEntries(data).Err? <==> exists j :: 0 <= j < |Hits(data).value| && HitEntry(Hits(data).value[j]).Err?
  {
    CollectRaises(Hits(data).value, HitEntry);
  }

  /** A response without `entries` gives no records; a response that is not a dict raises. */
  lemma NoEntriesNoRecords(data: Json)
    ensures data.JObj? && "entries" !in data.fields ==> RecentEntries(data) == Ok([])
    ensures !data.JObj? ==> RecentEntries(data) == Err(AttributeError)
  {
  }

  /** Two hits, one with PubMed id "111" and one without `fields.PUBMED`: one record. */
  lemma OnePublishedHitOfTwo()
    ensures RecentEntries(JObj(map["entries" := JArr([
        JObj(map["id" := JStr("1ABC"), "fields" := JObj(map["PUBMED" := JArr([JStr("111")])])]),
        JObj(map["id" := JStr("2XYZ"), "fields" := JObj(map[])])])]))
      == Ok([PdbEntry(JStr("1ABC"), JArr([JStr("111")]))])
  {
    var h1 := JObj(map["id" := JStr("1ABC"), "fields" := JObj(map["PUBMED" := JArr([JStr("111")])])]);
    var h2 := JObj(map["id" := JStr("2XYZ"), "fields" := JObj(map[])]);
    var hits := [h1, h2];
    assert Hits(JObj(map["entries" := JArr(hits)])) == Ok(hits);
    assert HitEntry(h1) == Ok(Some(PdbEntry(JStr("1ABC"), JArr([JStr("111")]))));
    assert HitEntry(h2) == Ok(None);
    assert hits[..0] == [] && hits[..2] == hits;
    var e := PdbEntry(JStr("1ABC"), JArr([JStr("111")]));
    assert Collect(hits[..0], HitEntry) == Ok([]);
    CollectStep(hits, HitEntry, 0);
    assert hits[0] == h1;
    var g: Json -> Result<Option<PdbEntry>> := HitEntry;
    assert g(hits[0]) == Ok(Some(e));
    assert [] + [e] == [e];
    assert Collect(hits[..1], HitEntry) == Ok([e]);
    CollectStep(hits, HitEntry, 1);
    assert Collect(hits[..2], HitEntry) == Ok([e]);
    assert Collect(hits, HitEntry) == Ok([PdbEntry(JStr("1ABC"), JArr([JStr("111")]))]);
    assert RecentEntries(JObj(map["entries" := JArr(hits)])) == Collect(hits, HitEntry);
  }
}
