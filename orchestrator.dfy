/**
 * `main` (main.py): fetch the recent PDB entries, derive the PubMed ids they
 * cite, stop early when there are none, and otherwise fetch the articles for
 * those ids. The two HTTP responses are parameters: the parsed PDB search
 * response and the parsed Europe PMC response.
 */
module Orchestrator {
  import opened PyJson
  import opened Comprehension
  import opened FetchPdb
  import opened FetchArticles

  /** A record as the PDB fetch returns it: a dict with `pdb_id` and `pubmed_id`. */
  function EntryDict(e: PdbEntry): map<string, Json> {
    map["pdb_id" := e.pdbId, "pubmed_id" := e.pubmedIds]
  }

  function EntryDicts(entries: seq<PdbEntry>): seq<map<string, Json>> {
    seq(|entries|, i requires 0 <= i < |entries| => EntryDict(entries[i]))
  }

  /** `v` is one of the values the comprehension draws from `entry`. */
  predicate Contributes(entry: map<string, Json>, v: Json) {
    "pubmed_id" in entry && IterationSet(entry["pubmed_id"]).Ok? && v in IterationSet(entry["pubmed_id"]).value
  }

  /**
   * The values of `[pmid for entry in entries if 'pubmed_id' in entry for
   * pmid in entry['pubmed_id']]`, as a set: only the set built from them is
   * ever used. Iterating a value that is not iterable raises TypeError.
   */
  function Flatten(entries: seq<map<string, Json>>): (r: Result<set<Json>>)
    ensures r.Err? ==> r.error == TypeError
    decreases |entries|
  {
    if |entries| == 0 then Ok({})
    else
      var prior :- Flatten(entries[..|entries| - 1]);
      var last := entries[|entries| - 1];
      if "pubmed_id" in last then
        var ids :- IterationSet(last["pubmed_id"]);
        Ok(prior + ids)
      else Ok(prior)
  }

  /** `set(...)` of the flattened values: every member must be hashable. */
  function PubmedIds(entries: seq<map<string, Json>>): (r: Result<set<Json>>)
    ensures r.Ok? ==> forall v :: v in r.value ==> Hashable(v)
    ensures r.Err? ==> r.error == TypeError
  {
    var ids :- Flatten(entries);
    if forall v :: v in ids ==> Hashable(v) then Ok(ids) else Err(TypeError)
  }

  /** `list(s)`: the members of a set in an order Python does not specify. */
  ghost function AsList(s: set<Json>): (r: seq<Json>)
    ensures |r| == |s|
    ensures forall x :: x in r <==> x in s
    ensures forall i, j :: 0 <= i < j < |r| ==> r[i] != r[j]
    decreases |s|
  {
    if s == {} then []
    else
      var x :| x in s;
      var rest := AsList(s - {x});
      [x] + rest
  }

  /** `str(pmid)` for each id, as the f-string of the query clause does it. */
  function FormatAll(ids: seq<Json>): (r: seq<string>)
    requires forall i :: 0 <= i < |ids| ==> Hashable(ids[i])
    ensures |r| == |ids|
    ensures forall i :: 0 <= i < |ids| && ids[i].JStr? ==> r[i] == ids[i].s
  {
    seq(|ids|, i requires 0 <= i < |ids| => Format(ids[i]))
  }

  /** How a run of `main` ends. */
  datatype Outcome =
    | Halted(entries: seq<PdbEntry>)
    | Finished(entries: seq<PdbEntry>, query: string, articles: seq<Article>)
    | Raised(error: PyError, sent: Option<string>)
  {
    /** The query posted to Europe PMC, if the article fetch was reached. */
    function QuerySent(): Option<string> {
      match this
      case Halted(_) => None
      case Finished(_, q, _) => Some(q)
      case Raised(_, q) => q
    }
  }

  /** `main`, with the two parsed responses standing in for the two HTTP calls. */
  ghost function Run(pdbResponse: Json, articleResponse: Json): Outcome {
    match RecentEntries(pdbResponse)
    case Err(e) => Raised(e, None)
    case Ok(entries) =>
      match PubmedIds(EntryDicts(entries))
      case Err(e) => Raised(e, None)
      case Ok(ids) =>
        if ids == {} then Halted(entries)
        else
          var query := BuildQuery(FormatAll(AsList(ids)));
          match NormaliseResults(articleResponse)
          case Err(e) => Raised(e, Some(query))
          case Ok(articles) => Finished(entries, query, articles)
  }

  /** A value is collected exactly when some entry with a `pubmed_id` yields it. */
  lemma {:induction false} FlattenMembers(entries: seq<map<string, Json>>, v: Json)
    requires Flatten(entries).Ok?
    ensures v in Flatten(entries).value <==> exists k :: 0 <= k < |entries| && Contributes(entries[k], v)
    decreases |entries|
  {
    if |entries| > 0 {
      var p := entries[..|entries| - 1];
      FlattenMembers(p, v);
      assert forall j :: 0 <= j < |p| ==> p[j] == entries[j];
      if exists k :: 0 <= k < |entries| && Contributes(entries[k], v) {
        var k :| 0 <= k < |entries| && Contributes(entries[k], v);
        if k < |p| {
          assert Contributes(p[k], v);
        }
      }
    }
  }

  /** The comprehension raises exactly when some entry's `pubmed_id` is not iterable. */
  lemma {:induction false} FlattenRaises(entries: seq<map<string, Json>>)
    ensures Flatten(entries).Err? <==>
      exists k :: 0 <= k < |entries| && "pubmed_id" in entries[k] && IterationSet(entries[k]["pubmed_id"]).Err?
    decreases |entries|
  {
    if |entries| > 0 {
      var p := entries[..|entries| - 1];
      FlattenRaises(p);
      assert forall j :: 0 <= j < |p| ==> p[j] == entries[j];
    }
  }

  /**
   * The derived id collection holds exactly the values some entry's
   * `pubmed_id` yields, once each; it exists exactly when every such value
   * is iterable and hashable.
   */
  lemma PubmedIdsMembers(entries: seq<map<string, Json>>, v: Json)
    ensures PubmedIds(entries).Ok? <==>
      Flatten(entries).Ok? && forall u :: u in Flatten(entries).value ==> Hashable(u)
    ensures PubmedIds(entries).Ok? ==>
      (v in PubmedIds(entries).value <==> exists k :: 0 <= k < |entries| && Contributes(entries[k], v))
  {
    if Flatten(entries).Ok? {
      FlattenMembers(entries, v);
    }
  }

  /** An entry without a `pubmed_id` key contributes nothing, wherever it stands. */
  lemma {:induction false} KeylessEntryIgnored(a: seq<map<string, Json>>, e: map<string, Json>, b: seq<map<string, Json>>)
    requires "pubmed_id" !in e
    ensures Flatten(a + [e] + b) == Flatten(a + b)
    decreases |b|
  {
    if |b| == 0 {
      assert a + [e] + b == a + [e];
      assert (a + [e])[..|a|] == a;
      assert a + b == a;
    } else {
      var b' := b[..|b| - 1];
      KeylessEntryIgnored(a, e, b');
      assert (a + [e] + b)[..|a + [e] + b| - 1] == a + [e] + b';
      assert (a + b)[..|a + b| - 1] == a + b';
    }
  }

  /** Two records citing "123" twice and "456" once give exactly the two ids. */
  lemma DedupExample()
    ensures PubmedIds([EntryDict(PdbEntry(JStr("1ABC"), JArr([JStr("123"), JStr("123")]))),
                       EntryDict(PdbEntry(JStr("2XYZ"), JArr([JStr("456")])))])
      == Ok({JStr("123"), JStr("456")})
    ensures |AsList({JStr("123"), JStr("456")})| == 2
  {
    var d1 := EntryDict(PdbEntry(JStr("1ABC"), JArr([JStr("123"), JStr("123")])));
    var d2 := EntryDict(PdbEntry(JStr("2XYZ"), JArr([JStr("456")])));
    var ds := [d1, d2];
    assert ds[..1] == [d1];
    var s1 := IterationSet(JArr([JStr("123"), JStr("123")])).value;
    assert forall x :: x in s1 <==> x == JStr("123");
    assert s1 == {JStr("123")};
    var s2 := IterationSet(JArr([JStr("456")])).value;
    assert forall x :: x in s2 <==> x == JStr("456");
    assert s2 == {JStr("456")};
    assert "pubmed_id" in d1 && d1["pubmed_id"] == JArr([JStr("123"), JStr("123")]);
    assert "pubmed_id" in d2 && d2["pubmed_id"] == JArr([JStr("456")]);
    var none: set<Json> := {};
    assert Flatten([d1][..0]) == Ok(none);
    assert none + s1 == s1;
    assert Flatten([d1]) == Ok({JStr("123")});
    assert s1 + s2 == {JStr("123"), JStr("456")};
    assert Flatten(ds) == Ok({JStr("123"), JStr("456")});
  }

  /** `order` lists every member of `ids` exactly once, and every member is hashable. */
  ghost predicate ListsOnce(order: seq<Json>, ids: set<Json>) {
    && |order| == |ids|
    && (forall x :: x in order <==> x in ids)
    && (forall i, j :: 0 <= i < j < |order| ==> order[i] != order[j])
    && (forall i :: 0 <= i < |order| ==> Hashable(order[i]))
  }

  /**
   * The article fetch is reached exactly when the PDB records were derived,
   * their ids were collected and the id collection is not empty; it then
   * posts one clause per collected id, each id once, and the run's articles
   * are the normalised Europe PMC results.
   */
  lemma ArticleFetchOnlyWithIds(pdbResponse: Json, articleResponse: Json)
    ensures Run(pdbResponse, articleResponse).QuerySent().Some? <==>
      RecentEntries(pdbResponse).Ok? &&
      PubmedIds(EntryDicts(RecentEntries(pdbResponse).value)).Ok? &&
      PubmedIds(EntryDicts(RecentEntries(pdbResponse).value)).value != {}
    ensures var o := Run(pdbResponse, articleResponse);
      o.QuerySent().Some? ==>
        var ids := PubmedIds(EntryDicts(RecentEntries(pdbResponse).value)).value;
        exists order: seq<Json> :: ListsOnce(order, ids) && o.QuerySent().value == BuildQuery(FormatAll(order))
    ensures var o := Run(pdbResponse, articleResponse);
      o.QuerySent().Some? ==>
        (o.Finished? <==> NormaliseResults(articleResponse).Ok?) &&
        (o.Finished? ==> o.articles == NormaliseResults(articleResponse).value) &&
        (o.Raised? ==> Err(o.error) == NormaliseResults(articleResponse))
  {
    if RecentEntries(pdbResponse).Ok? && PubmedIds(EntryDicts(RecentEntries(pdbResponse).value)).Ok? &&
       PubmedIds(EntryDicts(RecentEntries(pdbResponse).value)).value != {} {
      RunWithIds(pdbResponse, articleResponse);
      var ids := PubmedIds(EntryDicts(RecentEntries(pdbResponse).value)).value;
      var order := AsList(ids);
      ListedOnce(ids);
      assert ListsOnce(order, ids) && Run(pdbResponse, articleResponse).QuerySent().value == BuildQuery(FormatAll(order));
    } else {
      RunWithoutIds(pdbResponse, articleResponse);
    }
  }

  /** Without a derived, non-empty id set, `main` never reaches the article fetch. */
  lemma RunWithoutIds(pdbResponse: Json, articleResponse: Json)
    requires !(RecentEntries(pdbResponse).Ok? && PubmedIds(EntryDicts(RecentEntries(pdbResponse).value)).Ok? &&
               PubmedIds(EntryDicts(RecentEntries(pdbResponse).value)).value != {})
    ensures Run(pdbResponse, articleResponse).QuerySent().None?
  {
  }

  /** With a non-empty id set, `main` posts the query of the listed ids and ends as the article fetch ends. */
  lemma RunWithIds(pdbResponse: Json, articleResponse: Json)
    requires RecentEntries(pdbResponse).Ok?
    requires PubmedIds(EntryDicts(RecentEntries(pdbResponse).value)).Ok?
    requires PubmedIds(EntryDicts(RecentEntries(pdbResponse).value)).value != {}
    ensures var entries := RecentEntries(pdbResponse).value;
      var query := BuildQuery(FormatAll(AsList(PubmedIds(EntryDicts(entries)).value)));
      Run(pdbResponse, articleResponse) ==
        match NormaliseResults(articleResponse)
        case Err(e) => Raised(e, Some(query))
        case Ok(articles) => Finished(entries, query, articles)
  {
  }

  /** When the records cite no PubMed id, `main` returns before the article fetch. */
  lemma HaltsWithoutIds(pdbResponse: Json, articleResponse: Json)
    requires RecentEntries(pdbResponse).Ok?
    requires PubmedIds(EntryDicts(RecentEntries(pdbResponse).value)) == Ok({})
    ensures Run(pdbResponse, articleResponse) == Halted(RecentEntries(pdbResponse).value)
  {
  }

  /**
   * Every record the PDB fetch returns has a `pubmed_id` key, so the derived
   * ids are exactly the values some record's PubMed value yields, and
   * deriving them raises exactly when some record's PubMed value is not
   * iterable.
   */
  lemma DerivedIdsOfRecords(entries: seq<PdbEntry>, v: Json)
    ensures Flatten(EntryDicts(entries)).Ok? <==>
      forall i :: 0 <= i < |entries| ==> IterationSet(entries[i].pubmedIds).Ok?
    ensures Flatten(EntryDicts(entries)).Ok? ==>
      (v in Flatten(EntryDicts(entries)).value <==>
       exists i :: 0 <= i < |entries| && v in IterationSet(entries[i].pubmedIds).value)
  {
    var ds := EntryDicts(entries);
    FlattenRaises(ds);
    assert forall i :: 0 <= i < |entries| ==> "pubmed_id" in ds[i] && ds[i]["pubmed_id"] == entries[i].pubmedIds;
    if Flatten(ds).Ok? {
      FlattenMembers(ds, v);
      if exists i :: 0 <= i < |entries| && v in IterationSet(entries[i].pubmedIds).value {
        var i :| 0 <= i < |entries| && v in IterationSet(entries[i].pubmedIds).value;
        assert Contributes(ds[i], v);
      }
    } else {
      var k :| 0 <= k < |ds| && "pubmed_id" in ds[k] && IterationSet(ds[k]["pubmed_id"]).Err?;
      assert IterationSet(entries[k].pubmedIds).Err?;
    }
  }

  /**
   * When every derived id is a string without `)` (PubMed ids are digit
   * strings), the query `main` has posted reads back as a list of the id
   * strings that names every derived id exactly once.
   */
  lemma QueryNamesEachIdOnce(pdbResponse: Json, articleResponse: Json)
    requires RecentEntries(pdbResponse).Ok?
    requires PubmedIds(EntryDicts(RecentEntries(pdbResponse).value)).Ok?
    requires PubmedIds(EntryDicts(RecentEntries(pdbResponse).value)).value != {}
    requires forall v :: v in PubmedIds(EntryDicts(RecentEntries(pdbResponse).value)).value ==> v.JStr? && ')' !in v.s
    ensures Run(pdbResponse, articleResponse).QuerySent().Some?
    ensures var ids := PubmedIds(EntryDicts(RecentEntries(pdbResponse).value)).value;
      var parsed := ParseQuery(Run(pdbResponse, articleResponse).QuerySent().value);
      && parsed.Some?
      && |parsed.value| == |ids|
      && (forall x :: x in parsed.value <==> JStr(x) in ids)
      && (forall i, j :: 0 <= i < j < |parsed.value| ==> parsed.value[i] != parsed.value[j])
  {
    var ids := PubmedIds(EntryDicts(RecentEntries(pdbResponse).value)).value;
    RunWithIds(pdbResponse, articleResponse);
    assert Run(pdbResponse, articleResponse).QuerySent() == Some(BuildQuery(FormatAll(AsList(ids))));
    ListedIdsQuery(ids);
  }

  /** The listing of a set of hashable values lists each member once. */
  lemma ListedOnce(ids: set<Json>)
    requires forall v :: v in ids ==> Hashable(v)
    ensures ListsOnce(AsList(ids), ids)
  {
    var order := AsList(ids);
    forall i | 0 <= i < |order|
      ensures Hashable(order[i])
    {
      assert order[i] in ids;
    }
  }

  /** The texts of listed string ids are those strings, one per id, none with a `)`. */
  lemma ListedIdTexts(ids: set<Json>)
    requires forall v :: v in ids ==> v.JStr? && ')' !in v.s
    ensures forall i :: 0 <= i < |AsList(ids)| ==> AsList(ids)[i].JStr? && ')' !in AsList(ids)[i].s
    ensures var strs := FormatAll(AsList(ids));
      && |strs| == |ids|
      && (forall i :: 0 <= i < |strs| ==> strs[i] == AsList(ids)[i].s && ')' !in strs[i])
  {
    var order := AsList(ids);
    forall i | 0 <= i < |order|
      ensures order[i].JStr? && ')' !in order[i].s
    {
      assert order[i] in ids;
    }
  }

  /** The texts of listed string ids are exactly the id strings. */
  lemma ListedIdTextsMembers(ids: set<Json>, x: string)
    requires forall v :: v in ids ==> v.JStr? && ')' !in v.s
    ensures forall i :: 0 <= i < |AsList(ids)| ==> AsList(ids)[i].JStr?
    ensures x in FormatAll(AsList(ids)) <==> JStr(x) in ids
  {
    ListedIdTexts(ids);
    var order := AsList(ids);
    var strs := FormatAll(order);
    if x in strs {
      var i :| 0 <= i < |strs| && strs[i] == x;
      assert order[i] == JStr(x);
    }
    if JStr(x) in ids {
      assert JStr(x) in order;
      var i :| 0 <= i < |order| && order[i] == JStr(x);
      assert strs[i] == x;
    }
  }

  /** The texts of listed string ids are pairwise different. */
  lemma ListedIdTextsDistinct(ids: set<Json>)
    requires forall v :: v in ids ==> v.JStr? && ')' !in v.s
    ensures forall i :: 0 <= i < |AsList(ids)| ==> AsList(ids)[i].JStr?
    ensures var strs := FormatAll(AsList(ids));
      forall i, j :: 0 <= i < j < |strs| ==> strs[i] != strs[j]
  {
    ListedIdTexts(ids);
    var order := AsList(ids);
    var strs := FormatAll(order);
    forall i, j | 0 <= i < j < |strs|
      ensures strs[i] != strs[j]
    {
      assert order[i] != order[j];
    }
  }

  /** The query of the listed ids, all strings without `)`, reads back as each id string once. */
  lemma ListedIdsQuery(ids: set<Json>)
    requires forall v :: v in ids ==> v.JStr? && ')' !in v.s
    ensures var parsed := ParseQuery(BuildQuery(FormatAll(AsList(ids))));
      && parsed.Some?
      && |parsed.value| == |ids|
      && (forall x :: x in parsed.value <==> JStr(x) in ids)
      && (forall i, j :: 0 <= i < j < |parsed.value| ==> parsed.value[i] != parsed.value[j])
  {
    ListedIdTexts(ids);
    ListedIdTextsDistinct(ids);
    var strs := FormatAll(AsList(ids));
    QueryRoundTrip(strs);
    forall x
      ensures x in strs <==> JStr(x) in ids
    {
      ListedIdTextsMembers(ids, x);
    }
  }
}
