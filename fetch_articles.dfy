/**
 * `fetch_articles_from_pubmed_ids` (src/fetch_articles.py): the Europe PMC
 * query built from the PubMed ids, and the normalisation of each object of
 * the parsed response's `resultList.result` into a flat article record.
 */
module FetchArticles {
  import opened PyJson
  import opened Comprehension

  // ---------------------------------------------------------------------------
  // The query: one `(ext_id:<id> src:med)` clause per id, joined with " OR "
  // ---------------------------------------------------------------------------

  const ClauseOpen: string := "(ext_id:"
  const ClauseClose: string := " src:med)"
  const Separator: string := " OR "

  /** The clause `(ext_id:<id> src:med)` for one id. */
  function Clause(id: string): string {
    ClauseOpen + id + ClauseClose
  }

  /** `" OR ".join` of one clause per id. */
  function BuildQuery(ids: seq<string>): (q: string)
    ensures q == "" <==> ids == []
  {
    if |ids| == 0 then ""
    else if |ids| == 1 then Clause(ids[0])
    else Clause(ids[0]) + Separator + BuildQuery(ids[1..])
  }

  /** The position of the first `)` in `s`, or `|s|` if there is none. */
  function IndexOfClose(s: string): (k: nat)
    ensures k <= |s|
    ensures k < |s| ==> s[k] == ')'
    ensures forall j :: 0 <= j < k ==> s[j] != ')'
  {
    if |s| == 0 then 0
    else if s[0] == ')' then 0
    else 1 + IndexOfClose(s[1..])
  }

  /** Splits off the first clause of `q`: the id it holds, and the text after its `)`. */
  function ReadClause(q: string): (r: Option<(string, string)>)
    ensures r.Some? ==> |r.value.1| < |q|
  {
    var k := IndexOfClose(q);
    if k == |q| then None
    else
      var clause := q[..k + 1];
      if |clause| < |ClauseOpen| + |ClauseClose|
         || clause[..|ClauseOpen|] != ClauseOpen
         || clause[|clause| - |ClauseClose|..] != ClauseClose
      then None
      else Some((clause[|ClauseOpen|..|clause| - |ClauseClose|], q[k + 1..]))
  }

  /** Reads back the ids of a non-empty query: clauses up to each `)`, separated by " OR ". */
  function ParseClauses(q: string): Option<seq<string>>
    decreases |q|
  {
    match ReadClause(q)
    case None => None
    case Some((id, rest)) =>
      if rest == "" then Some([id])
      else if |rest| > |Separator| && rest[..|Separator|] == Separator then
        match ParseClauses(rest[|Separator|..])
        case None => None
        case Some(ids) => Some([id] + ids)
      else None
  }

  function ParseQuery(q: string): Option<seq<string>> {
    if q == "" then Some([]) else ParseClauses(q)
  }

  lemma ClauseEnds(id: string, rest: string)
    requires ')' !in id
    ensures IndexOfClose(Clause(id) + rest) == |Clause(id)| - 1
  {
    var s := Clause(id) + rest;
    var n := |Clause(id)| - 1;
    assert s[n] == ')';
    forall j | 0 <= j < n
      ensures s[j] != ')'
    {
      if j < |ClauseOpen| {
        assert s[j] == ClauseOpen[j];
      } else if j < |ClauseOpen| + |id| {
        assert s[j] == id[j - |ClauseOpen|];
      } else {
        assert s[j] == ClauseClose[j - |ClauseOpen| - |id|];
      }
    }
  }

  /** The first clause of a query, for an id without `)`, reads back as that id. */
  lemma ReadFirstClause(id: string, rest: string)
    requires ')' !in id
    ensures ReadClause(Clause(id) + rest) == Some((id, rest))
  {
    var q := Clause(id) + rest;
    ClauseEnds(id, rest);
    var k := |Clause(id)| - 1;
    assert q[..k + 1] == Clause(id);
    assert Clause(id)[..|ClauseOpen|] == ClauseOpen;
    assert Clause(id)[|Clause(id)| - |ClauseClose|..] == ClauseClose;
    assert Clause(id)[|ClauseOpen|..|Clause(id)| - |ClauseClose|] == id;
    assert q[k + 1..] == rest;
  }

  /** A clause put in front of a query that reads back as `tail` reads back as `id` then `tail`. */
  lemma ConsClause(id: string, tail: seq<string>)
    requires ')' !in id && |tail| > 0
    requires ParseClauses(BuildQuery(tail)) == Some(tail)
    ensures ParseClauses(BuildQuery([id] + tail)) == Some([id] + tail)
  {
    var q := BuildQuery(tail);
    var rest := Separator + q;
    var ids := [id] + tail;
    assert ids[0] == id && ids[1..] == tail;
    BuildQueryCons(ids);
    ReadFirstClause(id, rest);
    assert q != "";
    SeparatorSplits(q);
    ParseAfterClause(BuildQuery(ids), id, q);
  }

  /** A query that opens with a clause and `" OR "` reads back as that clause's id and then the rest. */
  lemma ParseAfterClause(whole: string, id: string, q: string)
    requires q != ""
    requires ReadClause(whole) == Some((id, Separator + q))
    ensures ParseClauses(whole) == match ParseClauses(q) case None => None case Some(ids) => Some([id] + ids)
  {
    SeparatorSplits(q);
  }

  lemma BuildQueryCons(ids: seq<string>)
    requires |ids| > 1
    ensures BuildQuery(ids) == Clause(ids[0]) + (Separator + BuildQuery(ids[1..]))
  {
    var c, q := Clause(ids[0]), BuildQuery(ids[1..]);
    assert c + Separator + q == c + (Separator + q);
  }

  /** `" OR "` in front of a non-empty text is recognised, and removing it gives the text back. */
  lemma SeparatorSplits(q: string)
    requires q != ""
    ensures |Separator + q| > |Separator|
    ensures (Separator + q)[..|Separator|] == Separator
    ensures (Separator + q)[|Separator|..] == q
  {
  }

  /** Why the round trip needs ids without `)`: an id holding `)` can forge a clause boundary. */
  lemma QueryAmbiguous()
    ensures BuildQuery(["a src:med) OR (ext_id:b"]) == BuildQuery(["a", "b"])
  {
    BuildQueryCons(["a", "b"]);
  }

  lemma {:induction false} ClausesRoundTrip(ids: seq<string>)
    requires |ids| > 0
    requires forall i :: 0 <= i < |ids| ==> ')' !in ids[i]
    ensures ParseClauses(BuildQuery(ids)) == Some(ids)
    decreases |ids|
  {
    if |ids| == 1 {
      assert BuildQuery(ids) == Clause(ids[0]) + "";
      ReadFirstClause(ids[0], "");
      assert ids == [ids[0]];
    } else {
      ClausesRoundTrip(ids[1..]);
      ConsClause(ids[0], ids[1..]);
      assert [ids[0]] + ids[1..] == ids;
    }
  }

  /**
   * The query holds exactly one clause per id, in id order: reading the
   * clauses back gives the ids (for ids without a `)`, which PubMed ids never
   * contain), and no ids give the empty query.
   */
  lemma QueryRoundTrip(ids: seq<string>)
    requires forall i :: 0 <= i < |ids| ==> ')' !in ids[i]
    ensures ParseQuery(BuildQuery(ids)) == Some(ids)
  {
    if |ids| > 0 {
      ClausesRoundTrip(ids);
    }
  }

  // ---------------------------------------------------------------------------
  // Authors: ORCIDs and affiliations, gathered over `authorList.author`
  // ---------------------------------------------------------------------------

  /** The ORCID an author contributes: `authorId.value` when `authorId` is truthy and its `type` is "ORCID". */
  function OrcidOf(author: Json): Result<Option<Json>> {
    if !author.JObj? then Err(AttributeError)
    else
      var authorId := Lookup(author.fields, "authorId", JNull);
      if !Truthy(authorId) then Ok(None)
      else
        var kind :- Get(authorId, "type", JNull);
        if kind == JStr("ORCID") then Ok(Some(Lookup(authorId.fields, "value", JNull))) else Ok(None)
  }

  /** The affiliation items of an author: `authorAffiliationDetailsList.authorAffiliation`, or none. */
  function AffiliationItems(author: map<string, Json>): Result<seq<Json>> {
    var items :- Get(Lookup(author, "authorAffiliationDetailsList", EmptyObject), "authorAffiliation", EmptyArray);
    Members(items)
  }

  /** One affiliation item: its truthy `affiliation` text, which must be hashable to enter the set. */
  function AffiliationText(aff: Json): Result<Option<Json>> {
    var text :- Get(aff, "affiliation", JNull);
    if !Truthy(text) then Ok(None)
    else if Hashable(text) then Ok(Some(text))
    else Err(TypeError)
  }

  datatype AuthorContribution = AuthorContribution(orcid: Option<Json>, texts: seq<Json>)

  /** One iteration of the author loop: the ORCID check, then the affiliation loop. */
  function AuthorStep(author: Json): Result<AuthorContribution> {
    if !author.JObj? then Err(AttributeError)
    else
      var orcid :- OrcidOf(author);
      var affs :- AffiliationItems(author.fields);
      var texts :- Collect(affs, AffiliationText);
      Ok(AuthorContribution(orcid, texts))
  }

  /** The `orcids` list and the `affiliations` set after the author loop. */
  datatype AuthorFacts = AuthorFacts(orcids: seq<Json>, affiliations: set<Json>)

  function AuthorFactsOf(authors: seq<Json>): Result<AuthorFacts>
    decreases |authors|
  {
    if |authors| == 0 then Ok(AuthorFacts([], {}))
    else
      var prior :- AuthorFactsOf(authors[..|authors| - 1]);
      var step :- AuthorStep(authors[|authors| - 1]);
      Ok(AuthorFacts(
        prior.orcids + (if step.orcid.Some? then [step.orcid.value] else []),
        prior.affiliations + set t | t in step.texts))
  }

  lemma AuthorFactsStep(authors: seq<Json>, i: nat)
    requires i < |authors|
    ensures AuthorFactsOf(authors[..i + 1]) ==
      match AuthorFactsOf(authors[..i])
      case Err(e) => Err(e)
      case Ok(prior) =>
        match AuthorStep(authors[i])
        case Err(e) => Err(e)
        case Ok(step) => Ok(AuthorFacts(
          prior.orcids + (if step.orcid.Some? then [step.orcid.value] else []),
          prior.affiliations + set t | t in step.texts))
  {
    assert authors[..i + 1][..i] == authors[..i];
  }

  lemma {:induction false} AuthorFactsStopsAt(authors: seq<Json>, k: nat)
    requires k <= |authors|
    requires AuthorFactsOf(authors[..k]).Err?
    ensures AuthorFactsOf(authors) == AuthorFactsOf(authors[..k])
    decreases |authors|
  {
    if k < |authors| {
      var p := authors[..|authors| - 1];
      assert p[..k] == authors[..k];
      AuthorFactsStopsAt(p, k);
    } else {
      assert authors[..k] == authors;
    }
  }

  /** The author loop, with its nested affiliation loop. */
  method CollectAuthorFacts(authors: seq<Json>) returns (r: Result<AuthorFacts>)
    ensures r == AuthorFactsOf(authors)
  {
    var orcids: seq<Json> := [];
    var affiliations: set<Json> := {};
    for i := 0 to |authors|
      invariant AuthorFactsOf(authors[..i]) == Ok(AuthorFacts(orcids, affiliations))
    {
      AuthorFactsStep(authors, i);
      if AuthorStep(authors[i]).Err? {
        AuthorFactsStopsAt(authors, i + 1);
      }
      var author := authors[i];
      if !author.JObj? {
        return Err(AttributeError);
      }
      ghost var orcidsBefore := orcids;
      var authorId := Lookup(author.fields, "authorId", JNull);
      if Truthy(authorId) {
        var kind :- Get(authorId, "type", JNull);
        if kind == JStr("ORCID") {
          orcids := orcids + [Lookup(authorId.fields, "value", JNull)];
        }
      }
      ghost var orcid := OrcidOf(author).value;
      assert orcids == orcidsBefore + (if orcid.Some? then [orcid.value] else []);
      var affs :- AffiliationItems(author.fields);
      ghost var texts := Collect(affs, AffiliationText);
      if texts.Err? {
        assert AuthorStep(author).Err?;
      }
      affiliations :- AddAffiliationTexts(affs, affiliations);
      assert AuthorStep(author) == Ok(AuthorContribution(orcid, texts.value));
    }
    assert authors[..|authors|] == authors;
    r := Ok(AuthorFacts(orcids, affiliations));
  }

  /** The affiliation loop: adds each item's truthy `affiliation` text to the set. */
  method AddAffiliationTexts(affs: seq<Json>, affiliations: set<Json>) returns (r: Result<set<Json>>)
    ensures r == match Collect(affs, AffiliationText)
                 case Err(e) => Err(e)
                 case Ok(texts) => Ok(affiliations + set t | t in texts)
  {
    var added := affiliations;
    ghost var texts: seq<Json> := [];
    for k := 0 to |affs|
      invariant Collect(affs[..k], AffiliationText) == Ok(texts)
      invariant added == affiliations + set t | t in texts
    {
      CollectStep(affs, AffiliationText, k);
      if AffiliationText(affs[k]).Err? {
        CollectStopsAt(affs, AffiliationText, k + 1);
      }
      var affText :- Get(affs[k], "affiliation", JNull);
      if Truthy(affText) {
        if !Hashable(affText) {
          return Err(TypeError);
        }
        added := added + {affText};
        texts := texts + [affText];
      }
    }
    assert affs[..|affs|] == affs;
    r := Ok(added);
  }

  /** What an author's ORCID step yields, in terms of the author's own fields. */
  lemma OrcidOfMeaning(author: Json, v: Json)
    ensures OrcidOf(author) == Ok(Some(v)) <==>
      author.JObj? && "authorId" in author.fields && Truthy(author.fields["authorId"]) &&
      author.fields["authorId"].JObj? &&
      "type" in author.fields["authorId"].fields && author.fields["authorId"].fields["type"] == JStr("ORCID") &&
      v == Lookup(author.fields["authorId"].fields, "value", JNull)
  {
  }

  /** The ORCID list is what a collecting loop over the authors with OrcidOf yields. */
  lemma {:induction false} AuthorOrcids(authors: seq<Json>)
    requires AuthorFactsOf(authors).Ok?
    ensures Collect(authors, OrcidOf) == Ok(AuthorFactsOf(authors).value.orcids)
    decreases |authors|
  {
    if |authors| > 0 {
      var n := |authors| - 1;
      assert authors[..n + 1] == authors;
      AuthorFactsStep(authors, n);
      CollectStep(authors, OrcidOf, n);
      AuthorOrcids(authors[..n]);
      AuthorStepOrcid(authors[n]);
      var f: Json -> Result<Option<Json>> := OrcidOf;
      assert f(authors[n]) == OrcidOf(authors[n]);
      var kept := AuthorFactsOf(authors[..n]).value.orcids;
      assert kept + [] == kept;
    }
  }

  lemma AuthorStepOrcid(author: Json)
    requires AuthorStep(author).Ok?
    ensures OrcidOf(author) == Ok(AuthorStep(author).value.orcid)
  {
  }

  /** `v` is the truthy `affiliation` text of one of the author's affiliation items. */
  predicate AffiliationOf(author: Json, v: Json) {
    author.JObj? && AffiliationItems(author.fields).Ok? &&
    exists k :: 0 <= k < |AffiliationItems(author.fields).value| &&
      AffiliationText(AffiliationItems(author.fields).value[k]) == Ok(Some(v))
  }

  lemma StepTexts(author: Json, v: Json)
    requires AuthorStep(author).Ok?
    ensures v in AuthorStep(author).value.texts <==> AffiliationOf(author, v)
  {
    assert author.JObj? && AffiliationItems(author.fields).Ok?;
    var affs := AffiliationItems(author.fields).value;
    assert Collect(affs, AffiliationText) == Ok(AuthorStep(author).value.texts);
    CollectMembership(affs, AffiliationText, v);
  }

  /** The affiliation set holds exactly the truthy affiliation texts of all authors. */
  lemma {:induction false} AuthorAffiliations(authors: seq<Json>, v: Json)
    requires AuthorFactsOf(authors).Ok?
    ensures v in AuthorFactsOf(authors).value.affiliations <==>
      exists j :: 0 <= j < |authors| && AffiliationOf(authors[j], v)
    decreases |authors|
  {
    if |authors| > 0 {
      var p := authors[..|authors| - 1];
      var last := authors[|authors| - 1];
      AuthorAffiliations(p, v);
      StepTexts(last, v);
      assert forall j :: 0 <= j < |p| ==> p[j] == authors[j];
      if AffiliationOf(last, v) {
        assert AffiliationOf(authors[|authors| - 1], v);
      }
    }
  }

  lemma AffiliationTextMeaning(aff: Json, v: Json)
    ensures AffiliationText(aff) == Ok(Some(v)) <==>
      aff.JObj? && "affiliation" in aff.fields && aff.fields["affiliation"] == v && Truthy(v) && Hashable(v)
  {
  }

  // ---------------------------------------------------------------------------
  // Sub-lists, flags and the article record
  // ---------------------------------------------------------------------------

  /** `result.get(listKey, {}).get(itemsKey, [])`, as the items a comprehension runs over. */
  function SubList(result: map<string, Json>, listKey: string, itemsKey: string): Result<seq<Json>> {
    var items :- Get(Lookup(result, listKey, EmptyObject), itemsKey, EmptyArray);
    Members(items)
  }

  /** `item.get(key)` kept when truthy. */
  function TruthyValue(key: string, item: Json): Result<Option<Json>> {
    var v :- Get(item, key, JNull);
    Ok(if Truthy(v) then Some(v) else None)
  }

  function TruthyPicker(key: string): Json -> Result<Option<Json>> {
    item => TruthyValue(key, item)
  }

  /** `[x.get(valueKey) for x in result.get(listKey, {}).get(itemsKey, []) if x.get(valueKey)]`. */
  function TruthyValues(result: map<string, Json>, listKey: string, itemsKey: string, valueKey: string): Result<seq<Json>> {
    var items :- SubList(result, listKey, itemsKey);
    Collect(items, TruthyPicker(valueKey))
  }

  /**
   * The comprehension keeps exactly the truthy `valueKey` values of its items,
   * in item order: no kept value is empty, and every item with a truthy value
   * is kept.
   */
  lemma TruthyValuesExact(result: map<string, Json>, listKey: string, itemsKey: string, valueKey: string)
    requires TruthyValues(result, listKey, itemsKey, valueKey).Ok?
    ensures SubList(result, listKey, itemsKey).Ok?
    ensures var items, out, idx := SubList(result, listKey, itemsKey).value,
                                  TruthyValues(result, listKey, itemsKey, valueKey).value,
                                  Kept(SubList(result, listKey, itemsKey).value, TruthyPicker(valueKey));
      && |out| == |idx| <= |items|
      && (forall i :: 0 <= i < |out| ==>
            Truthy(out[i]) && items[idx[i]].JObj? && valueKey in items[idx[i]].fields &&
            items[idx[i]].fields[valueKey] == out[i])
      && (forall j :: 0 <= j < |items| ==>
            items[j].JObj? && (j in idx <==> valueKey in items[j].fields && Truthy(items[j].fields[valueKey])))
  {
    var items := SubList(result, listKey, itemsKey).value;
    CollectKeeps(items, TruthyPicker(valueKey));
  }

  /** Whether `"PDB"` is in the result's `dbCrossReferenceList.dbName`. */
  function PdbLinked(result: map<string, Json>): Result<bool> {
    var names :- Get(Lookup(result, "dbCrossReferenceList", EmptyObject), "dbName", EmptyArray);
    In("PDB", names)
  }

  /** The authors the author loop runs over: `authorList.author`, or none. */
  function AuthorsOf(result: map<string, Json>): Result<seq<Json>> {
    var authors :- Get(Lookup(result, "authorList", EmptyObject), "author", EmptyArray);
    Members(authors)
  }

  datatype Article = Article(
    pubmedId: Json,
    doi: Json,
    title: Json,
    authorString: Json,
    orcids: seq<Json>,
    affiliations: set<Json>,
    year: Json,
    journalTitle: Json,
    journalVolume: Json,
    journalIssue: Json,
    pageInfo: Json,
    abstractText: Json,
    isOpenAccess: bool,
    publicationStatus: Json,
    publicationModel: Json,
    citedByCount: Json,
    meshTerms: seq<Json>,
    chemicals: seq<Json>,
    grants: seq<Json>,
    fullTextUrls: seq<Json>,
    pdbLinked: bool)

  /**
   * The article record, built once the author loop has produced
   * `facts`: the four sub-lists, the PDB flag, and the dict literal with its
   * copied, defaulted and tested fields.
   */
  function ArticleRecord(r: map<string, Json>, facts: AuthorFacts): Result<Article> {
    var meshTerms :- TruthyValues(r, "meshHeadingList", "meshHeading", "descriptorName");
    var chemicals :- TruthyValues(r, "chemicalList", "chemical", "name");
    var grants :- TruthyValues(r, "grantsList", "grant", "agency");
    var urls :- TruthyValues(r, "fullTextUrlList", "fullTextUrl", "url");
    var pdbLinked :- PdbLinked(r);
    var journalInfo := Lookup(r, "journalInfo", EmptyObject);
    var journal :- Get(journalInfo, "journal", EmptyObject);
    var journalTitle :- Get(journal, "title", JNull);
    var id := Lookup(r, "id", JNull);
    Ok(Article(
      pubmedId := if Truthy(id) then id else Lookup(r, "pmid", JNull),
      doi := Lookup(r, "doi", JNull),
      title := Lookup(r, "title", JNull),
      authorString := Lookup(r, "authorString", JNull),
      orcids := facts.orcids,
      affiliations := facts.affiliations,
      year := Lookup(r, "pubYear", JNull),
      journalTitle := journalTitle,
      journalVolume := Lookup(journalInfo.fields, "volume", JNull),
      journalIssue := Lookup(journalInfo.fields, "issue", JNull),
      pageInfo := Lookup(r, "pageInfo", JNull),
      abstractText := Lookup(r, "abstractText", JNull),
      isOpenAccess := Lookup(r, "isOpenAccess", JNull) == JStr("Y"),
      publicationStatus := Lookup(r, "publicationStatus", JNull),
      publicationModel := Lookup(r, "pubModel", JNull),
      citedByCount := Lookup(r, "citedByCount", JInt(0)),
      meshTerms := meshTerms,
      chemicals := chemicals,
      grants := grants,
      fullTextUrls := urls,
      pdbLinked := pdbLinked))
  }

  /** One iteration of the result loop: one result object becomes one article record. */
  function NormaliseArticle(result: Json): Result<Article> {
    if !result.JObj? then Err(AttributeError)
    else
      var authors :- AuthorsOf(result.fields);
      var facts :- AuthorFactsOf(authors);
      ArticleRecord(result.fields, facts)
  }

  /** The result objects the result loop runs over: `resultList.result`, or none. */
  function Results(data: Json): Result<seq<Json>> {
    var resultList :- Get(data, "resultList", EmptyObject);
    var results :- Get(resultList, "result", EmptyArray);
    Members(results)
  }

  /** The `articles` list the loop builds from the parsed response. */
  function NormaliseResults(data: Json): Result<seq<Article>> {
    var results :- Results(data);
    MapAll(results, NormaliseArticle)
  }

  /** One iteration of the result loop: the author loop runs as a loop, the record is then built. */
  method NormaliseResult(result: Json) returns (r: Result<Article>)
    ensures r == NormaliseArticle(result)
  {
    if !result.JObj? {
      return Err(AttributeError);
    }
    var authors :- AuthorsOf(result.fields);
    var facts :- CollectAuthorFacts(authors);
    r := ArticleRecord(result.fields, facts);
  }

  /**
   * The whole function after the HTTP call: the query it posts, and the
   * articles it builds from the parsed response `data` to that query.
   */
  method FetchArticlesFromPubmedIds(pubIds: seq<string>, data: Json) returns (articles: Result<seq<Article>>, query: string)
    ensures query == BuildQuery(pubIds)
    ensures articles == NormaliseResults(data)
  {
    query := BuildQuery(pubIds);
    var results :- Results(data);
    var out: seq<Article> := [];
    for i := 0 to |results|
      invariant MapAll(results[..i], NormaliseArticle) == Ok(out)
    {
      MapAllStep(results, NormaliseArticle, i);
      if NormaliseArticle(results[i]).Err? {
        MapAllStopsAt(results, NormaliseArticle, i + 1);
      }
      var article :- NormaliseResult(results[i]);
      out := out + [article];
    }
    assert results[..|results|] == results;
    articles := Ok(out);
  }

  // ---------------------------------------------------------------------------
  // Properties of the normalisation
  // ---------------------------------------------------------------------------

  /** Exactly one article per result object, in the same order; no `resultList` or `result` gives none. */
  lemma OneArticlePerResult(data: Json)
    ensures NormaliseResults(data).Ok? ==>
      Results(data).Ok? && |NormaliseResults(data).value| == |Results(data).value| &&
      forall i :: 0 <= i < |Results(data).value| ==>
        NormaliseArticle(Results(data).value[i]) == Ok(NormaliseResults(data).value[i])
    ensures data.JObj? && "resultList" !in data.fields ==> NormaliseResults(data) == Ok([])
    ensures (data.JObj? && "resultList" in data.fields && data.fields["resultList"].JObj? &&
             "result" !in data.fields["resultList"].fields) ==> NormaliseResults(data) == Ok([])
  {
    if NormaliseResults(data).Ok? {
      MapAllPointwise(Results(data).value, NormaliseArticle);
    }
  }

  /** The response is normalised unless some result object raises. */
  lemma NormaliseResultsRaises(data: Json)
    requires Results(data).Ok?
    ensures NormaliseResults(data).Ok? <==>
      forall i :: 0 <= i < |Results(data).value| ==> NormaliseArticle(Results(data).value[i]).Ok?
  {
    MapAllFinishes(Results(data).value, NormaliseArticle);
  }

  /**
   * The scalar fields: `pubmed_id` is a truthy `id`, else `pmid`;
   * `is_open_access` holds iff `isOpenAccess` is the string "Y";
   * `cited_by_count` is `citedByCount` when present (even null), else 0;
   * every other top-level scalar is copied from its key, or null when the
   * key is absent.
   */
  lemma ArticleScalars(result: Json)
    requires NormaliseArticle(result).Ok?
    ensures result.JObj?
    ensures var a, f := NormaliseArticle(result).value, result.fields;
      && a.pubmedId == (if "id" in f && Truthy(f["id"]) then f["id"] else if "pmid" in f then f["pmid"] else JNull)
      && (a.isOpenAccess <==> "isOpenAccess" in f && f["isOpenAccess"] == JStr("Y"))
      && a.citedByCount == (if "citedByCount" in f then f["citedByCount"] else JInt(0))
      && a.doi == (if "doi" in f then f["doi"] else JNull)
      && a.title == (if "title" in f then f["title"] else JNull)
      && a.authorString == (if "authorString" in f then f["authorString"] else JNull)
      && a.year == (if "pubYear" in f then f["pubYear"] else JNull)
      && a.pageInfo == (if "pageInfo" in f then f["pageInfo"] else JNull)
      && a.abstractText == (if "abstractText" in f then f["abstractText"] else JNull)
      && a.publicationStatus == (if "publicationStatus" in f then f["publicationStatus"] else JNull)
      && a.publicationModel == (if "pubModel" in f then f["pubModel"] else JNull)
  {
    NormalisedRecord(result);
  }

  /** A normalised result is the record built from its fields and its authors' facts. */
  lemma NormalisedRecord(result: Json)
    requires NormaliseArticle(result).Ok?
    ensures result.JObj? && AuthorsOf(result.fields).Ok? && AuthorFactsOf(AuthorsOf(result.fields).value).Ok?
    ensures NormaliseArticle(result) == ArticleRecord(result.fields, AuthorFactsOf(AuthorsOf(result.fields).value).value)
  {
  }

  /**
   * The journal fields: `journalInfo` and `journalInfo.journal`, when present,
   * are dicts (otherwise the record raises, see JournalNotDictRaises); the
   * title is `journalInfo.journal.title`, the volume and issue are
   * `journalInfo.volume` and `journalInfo.issue`, each null when absent.
   */
  lemma ArticleJournal(result: Json)
    requires NormaliseArticle(result).Ok?
    ensures result.JObj?
    ensures var a, f := NormaliseArticle(result).value, result.fields;
      && ("journalInfo" in f ==> f["journalInfo"].JObj?)
      && var info := Lookup(f, "journalInfo", EmptyObject).fields;
      && ("journal" in info ==> info["journal"].JObj?)
      && a.journalVolume == (if "volume" in info then info["volume"] else JNull)
      && a.journalIssue == (if "issue" in info then info["issue"] else JNull)
      && a.journalTitle == (if "journal" in info && "title" in info["journal"].fields
                            then info["journal"].fields["title"] else JNull)
  {
  }

  /**
   * A `journalInfo`, or a `journalInfo.journal`, that is present but not a
   * dict makes the record raise; when nothing before the journal lookup raises, the
   * exception is AttributeError.
   */
  lemma JournalNotDictRaises(result: Json)
    requires result.JObj?
    requires var f := result.fields;
      ("journalInfo" in f && !f["journalInfo"].JObj?) ||
      ("journalInfo" in f && f["journalInfo"].JObj? && "journal" in f["journalInfo"].fields &&
       !f["journalInfo"].fields["journal"].JObj?)
    ensures NormaliseArticle(result).Err?
    ensures var f := result.fields;
      (AuthorsOf(f).Ok? && AuthorFactsOf(AuthorsOf(f).value).Ok? &&
       TruthyValues(f, "meshHeadingList", "meshHeading", "descriptorName").Ok? &&
       TruthyValues(f, "chemicalList", "chemical", "name").Ok? &&
       TruthyValues(f, "grantsList", "grant", "agency").Ok? &&
       TruthyValues(f, "fullTextUrlList", "fullTextUrl", "url").Ok? &&
       PdbLinked(f).Ok?) ==> NormaliseArticle(result) == Err(AttributeError)
  {
  }

  /**
   * `pdb_linked` is `"PDB" in dbName`: for a list, membership of the string
   * "PDB"; no cross-reference container or no `dbName` gives false.
   */
  lemma PdbLinkedMeaning(result: Json)
    requires NormaliseArticle(result).Ok?
    ensures result.JObj?
    ensures var a, f := NormaliseArticle(result).value, result.fields;
      var names := Lookup(Lookup(f, "dbCrossReferenceList", EmptyObject).fields, "dbName", EmptyArray);
      && (names.JArr? ==> (a.pdbLinked <==> JStr("PDB") in names.items))
      && (names.JStr? ==> (a.pdbLinked <==> IsSubstring("PDB", names.s)))
      && (names.JObj? ==> (a.pdbLinked <==> "PDB" in names.fields))
      && ("dbCrossReferenceList" !in f ==> !a.pdbLinked)
      && ("dbCrossReferenceList" in f && "dbName" !in f["dbCrossReferenceList"].fields ==> !a.pdbLinked)
  {
  }

  /** The four sub-lists are the comprehensions over their containers. */
  lemma ArticleSubLists(result: Json)
    requires NormaliseArticle(result).Ok?
    ensures result.JObj?
    ensures var a, f := NormaliseArticle(result).value, result.fields;
      && TruthyValues(f, "meshHeadingList", "meshHeading", "descriptorName") == Ok(a.meshTerms)
      && TruthyValues(f, "chemicalList", "chemical", "name") == Ok(a.chemicals)
      && TruthyValues(f, "grantsList", "grant", "agency") == Ok(a.grants)
      && TruthyValues(f, "fullTextUrlList", "fullTextUrl", "url") == Ok(a.fullTextUrls)
      && (forall i :: 0 <= i < |a.meshTerms| ==> Truthy(a.meshTerms[i]))
      && (forall i :: 0 <= i < |a.chemicals| ==> Truthy(a.chemicals[i]))
      && (forall i :: 0 <= i < |a.grants| ==> Truthy(a.grants[i]))
      && (forall i :: 0 <= i < |a.fullTextUrls| ==> Truthy(a.fullTextUrls[i]))
  {
    var f := result.fields;
    TruthyValuesExact(f, "meshHeadingList", "meshHeading", "descriptorName");
    TruthyValuesExact(f, "chemicalList", "chemical", "name");
    TruthyValuesExact(f, "grantsList", "grant", "agency");
    TruthyValuesExact(f, "fullTextUrlList", "fullTextUrl", "url");
  }

  /** The author facts a normalised article carries. */
  lemma ArticleAuthorFacts(result: Json)
    requires NormaliseArticle(result).Ok?
    ensures result.JObj? && AuthorsOf(result.fields).Ok?
    ensures AuthorFactsOf(AuthorsOf(result.fields).value) ==
      Ok(AuthorFacts(NormaliseArticle(result).value.orcids, NormaliseArticle(result).value.affiliations))
  {
  }

  /**
   * `orcids` has one entry per author whose truthy `authorId` has type
   * "ORCID", in author order, and that entry is the author's `authorId.value`.
   */
  lemma ArticleOrcids(result: Json)
    requires NormaliseArticle(result).Ok?
    ensures result.JObj? && AuthorsOf(result.fields).Ok?
    ensures var orcids, authors := NormaliseArticle(result).value.orcids, AuthorsOf(result.fields).value;
      var idx := Kept(authors, OrcidOf);
      && |orcids| == |idx|
      && (forall i :: 0 <= i < |idx| ==> OrcidOf(authors[idx[i]]) == Ok(Some(orcids[i])))
      && (forall j :: 0 <= j < |authors| ==> (j in idx <==> OrcidOf(authors[j]).Ok? && OrcidOf(authors[j]).value.Some?))
  {
    ArticleAuthorFacts(result);
    var authors := AuthorsOf(result.fields).value;
    AuthorOrcids(authors);
    CollectKeeps(authors, OrcidOf);
  }

  /** `affiliations` holds exactly the truthy affiliation texts of all the article's authors. */
  lemma ArticleAffiliations(result: Json, v: Json)
    requires NormaliseArticle(result).Ok?
    ensures result.JObj? && AuthorsOf(result.fields).Ok?
    ensures v in NormaliseArticle(result).value.affiliations <==>
      exists j :: 0 <= j < |AuthorsOf(result.fields).value| && AffiliationOf(AuthorsOf(result.fields).value[j], v)
  {
    ArticleAuthorFacts(result);
    AuthorAffiliations(AuthorsOf(result.fields).value, v);
  }

  /** A container the result does not have gives an empty sub-list. */
  lemma AbsentSubListIsEmpty(result: map<string, Json>, listKey: string, itemsKey: string, valueKey: string)
    requires listKey !in result
    ensures TruthyValues(result, listKey, itemsKey, valueKey) == Ok([])
  {
    assert SubList(result, listKey, itemsKey) == Ok([]);
  }

  /** An author whose `authorId` is the ORCID "0000-0001", with no affiliations. */
  const OrcidAuthor: Json :=
    JObj(map["authorId" := JObj(map["type" := JStr("ORCID"), "value" := JStr("0000-0001")])])

  /** The author loop over that one author yields its ORCID and no affiliation. */
  lemma OrcidAuthorFacts()
    ensures AuthorFactsOf([OrcidAuthor]) == Ok(AuthorFacts([JStr("0000-0001")], {}))
  {
    var author := OrcidAuthor;
    var authors := [author];
    assert OrcidOf(author) == Ok(Some(JStr("0000-0001")));
    assert AffiliationItems(author.fields) == Ok([]);
    assert AuthorStep(author) == Ok(AuthorContribution(Some(JStr("0000-0001")), []));
    assert authors[..0] == [] && authors[..1] == authors;
    assert AuthorFactsOf(authors[..0]) == Ok(AuthorFacts([], {}));
    AuthorFactsStep(authors, 0);
    assert (set t: Json | t in []) == {};
    assert [] + [JStr("0000-0001")] == [JStr("0000-0001")];
    var none: set<Json> := {};
    assert none + none == none;
  }

  /** A result whose one author carries ORCID "0000-0001" yields that ORCID. */
  lemma OrcidAuthorExample()
    ensures NormaliseArticle(JObj(map["authorList" := JObj(map["author" := JArr([OrcidAuthor])])])).Ok?
    ensures NormaliseArticle(JObj(map["authorList" := JObj(map["author" := JArr([OrcidAuthor])])]))
      .value.orcids == [JStr("0000-0001")]
  {
    var r := map["authorList" := JObj(map["author" := JArr([OrcidAuthor])])];
    assert AuthorsOf(r) == Ok([OrcidAuthor]);
    OrcidAuthorFacts();
    AbsentSubListIsEmpty(r, "meshHeadingList", "meshHeading", "descriptorName");
    AbsentSubListIsEmpty(r, "chemicalList", "chemical", "name");
    AbsentSubListIsEmpty(r, "grantsList", "grant", "agency");
    AbsentSubListIsEmpty(r, "fullTextUrlList", "fullTextUrl", "url");
    assert PdbLinked(r) == Ok(false);
    assert Get(Lookup(r, "journalInfo", EmptyObject), "journal", EmptyObject) == Ok(EmptyObject);
  }
}
