# pdb-analysis: the normalisation core

The pipeline runs in two steps. First it asks the EBI search service for PDBe
entries created in the last five years. It then asks Europe PMC for the articles those
entries cite by PubMed id. This project models what the pipeline does between
the two HTTP calls. All of it works on the parsed JSON response.

- **Hit filter** (`fetch_recent_pdb_entries`). The search response's `entries`
  become `{pdb_id, pubmed_id}` records. A hit without a truthy `id` is skipped.
  A hit without a truthy `fields.PUBMED` is dropped.
- **Id extraction** (`main`). The records' `pubmed_id` values are flattened
  into one duplicate-free collection. If that collection is empty, `main`
  returns before the article fetch.
- **Query** (`fetch_articles_from_pubmed_ids`). Each id becomes one
  `(ext_id:<id> src:med)` clause, and the clauses are joined with `" OR "`.
- **Article normalisation** (the same function). Each object of
  `resultList.result` becomes a flat article record:
  - the ORCIDs of its authors, in author order;
  - the set of its authors' affiliation texts;
  - four lists that keep only truthy sub-fields;
  - two flags: open access, and linked to the PDB;
  - the copied or defaulted scalar fields.

A parsed JSON value is the datatype `PyJson.Json`. The Python operations the
code applies to it are modelled with Python's own behaviour:

- truthiness;
- `dict.get` with a default;
- iteration over a list, a string or a dict;
- `in`;
- hashing into a set;
- `str()`.

An operation on a value of the wrong shape raises in Python, for example
`None.get(...)` or `for x in 5`. The model returns `Err(AttributeError)` or
`Err(TypeError)` in that case. A loop stops at the first item that raises, as
Python's does.

The source is imperative in three places:

- the hit loop, with `continue` and `append`;
- the result loop;
- the nested author and affiliation loops, which append to `orcids` and add
  to the `affiliations` set.

Each of these is a Dafny `method` with a `for` loop. Each method is proved
equal to a specification function that recurses on the prefix of the list:
`FetchPdb.RecentEntries`, `FetchArticles.NormaliseResults` and
`FetchArticles.AuthorFactsOf`. The properties are proved as lemmas about those
functions. Module `Comprehension` holds the two loop shapes they share:

- `Collect` filters (`[g(x) for x in s if p(x)]`);
- `MapAll` maps one value per item.

`main` is a composition of pure steps. It is modelled as the functions
`Orchestrator.PubmedIds` and `Orchestrator.Run`. `Run` takes the two parsed
HTTP responses as parameters.

Files:

| file | module | contents |
|---|---|---|
| `pyjson.dfy` | `PyJson` | JSON values, `Result`/`Option`, and Python's truthiness, `get`, iteration, `in`, hashability and `str()` |
| `comprehension.dfy` | `Comprehension` | filtering and mapping loops with first-exception semantics, and their lemmas |
| `fetch_pdb.dfy` | `FetchPdb` | the hit filter |
| `fetch_articles.dfy` | `FetchArticles` | the query, the author loop, the sub-lists and flags, the article record, the result loop |
| `orchestrator.dfy` | `Orchestrator` | id flattening and dedup, the early exit, the whole run |

## Model

| member | source | states |
|---|---|---|
| PyJson.FalsyValues | src/fetch_pdb.py:48 | `Truthy` is Python's truthiness: a value is falsy exactly when it is `None`, `False`, `0`, `""`, `[]` or `{}` |
| PyJson.Get | src/fetch_pdb.py:47 | `v.get(key, default)` succeeds exactly on a dict: the key's value if present, otherwise the default; on anything else it raises AttributeError |
| PyJson.Members | src/fetch_pdb.py:46 | a loop whose body calls `.get` on each item visits a list's items; it visits a string's one-character strings; it visits nothing for an empty dict; it raises for a non-empty dict and for `None`, booleans and numbers |
| PyJson.IterationSet | main.py:24 | the values a `for` visits: a list's elements, a string's one-character strings, or a dict's keys as strings; `None`, booleans and numbers raise TypeError |
| PyJson.In | src/fetch_articles.py:94 | `x in c` is list membership, substring or key membership; it raises TypeError for `None`, booleans and numbers |
| PyJson.NatToString | src/fetch_articles.py:28 | the decimal text of a number is non-empty, has only digits and has no leading zero, and its digits read back as that number |
| PyJson.Format | src/fetch_articles.py:28 | `str()` of an id inside the f-string: a string is written as itself; `None`, `True` and `False` as those words; an integer as its canonical decimal digits (non-empty, no leading zero, reading back as its value), with a leading `-` when negative |
| Comprehension.Kept | src/fetch_pdb.py:45-61 | the positions a filtering loop keeps are in bounds and strictly increasing; they are exactly the items whose step keeps a value |
| Comprehension.CollectKeeps | src/fetch_pdb.py:45-61 | a filtering loop that finishes ran every step; it yields, in order, exactly the values the kept items' steps produced |
| Comprehension.CollectMembership | src/fetch_articles.py:60-63 | a value is collected exactly when some item's step keeps that value |
| Comprehension.CollectRaises | src/fetch_pdb.py:45-61 | a filtering loop raises exactly when some step raises, and with the exception of the first such step |
| Comprehension.CollectStopsAt | src/fetch_pdb.py:45-61 | once a prefix of the loop has raised, the later items change nothing |
| Comprehension.CollectSkips | src/fetch_pdb.py:48-50 | an item whose step keeps nothing can be inserted anywhere without changing the result |
| Comprehension.MapAllPointwise | src/fetch_articles.py:47-98 | a mapping loop that finishes yields one value per item, and the i-th value is the i-th item's step result |
| Comprehension.MapAllFinishes | src/fetch_articles.py:47-98 | a mapping loop finishes exactly when no step raises |
| Comprehension.MapAllStopsAt | src/fetch_articles.py:47-98 | once a prefix of the loop has raised, the later items change nothing |
| FetchPdb.FetchRecentPdbEntries | src/fetch_pdb.py:45-61 | the loop, with its `continue` and `append`, builds exactly the list `RecentEntries` specifies, and raises exactly when that specification does |
| FetchPdb.HitDecision | src/fetch_pdb.py:47-59 | `HitEntry`, one iteration of the hit loop: a hit raises exactly when it is not a dict, or when it has a truthy id and a `fields` that is not a dict; a record is emitted exactly when the id is truthy and `fields.PUBMED` is present and truthy; the record is that id and that PUBMED value |
| FetchPdb.SkippedHitContributesNothing | src/fetch_pdb.py:47-50 | a hit whose `id` is absent or falsy is skipped and contributes no record wherever it stands |
| FetchPdb.UnpublishedHitIsDropped | src/fetch_pdb.py:52-55 | a hit with no `fields`, or with `PUBMED` absent or empty, is dropped wherever it stands |
| FetchPdb.RecentEntriesAreTheEmittingHits | src/fetch_pdb.py:45-61 | of the records `RecentEntries` builds, there are at most as many records as hits; every record has a truthy `pdb_id` and a truthy `pubmed_id`, both copied unchanged from its hit; the records are, in hit order, exactly the hits that pass both checks |
| FetchPdb.RecentEntriesRaises | src/fetch_pdb.py:45-61 | the filter raises exactly when some hit's body raises |
| FetchPdb.NoEntriesNoRecords | src/fetch_pdb.py:46 | a response without `entries` gives no records; a response that is not a dict raises AttributeError |
| FetchPdb.OnePublishedHitOfTwo | src/fetch_pdb.py:45-61 | of two hits, one with PUBMED `["111"]` and one without, only the first becomes a record |
| FetchArticles.BuildQuery | src/fetch_articles.py:28-29 | the query is empty exactly when there are no ids |
| FetchArticles.IndexOfClose | src/fetch_articles.py:28 | in the reference parser `ParseQuery`, which reads back the clauses built here (the source has no such parser): the first `)` of a text, or its end when it has none |
| FetchArticles.ClauseEnds | src/fetch_articles.py:28 | a clause for an id without `)` ends at its own closing bracket |
| FetchArticles.ClausesRoundTrip | src/fetch_articles.py:28-29 | for a non-empty list of ids without `)`, splitting the joined query back into clauses gives the ids, in input order, one clause per id |
| FetchArticles.QueryAmbiguous | src/fetch_articles.py:28-29 | an id containing `)` can forge a clause boundary: the list `["a src:med) OR (ext_id:b"]` gives the same query as `["a", "b"]` |
| FetchArticles.QueryRoundTrip | src/fetch_articles.py:28-29 | for ids without `)`, the query is one `(ext_id:<id> src:med)` clause per id, in input order, joined with `" OR "`: parsing it back gives exactly the ids (the empty list gives the empty query) |
| FetchArticles.CollectAuthorFacts | src/fetch_articles.py:49-63 | the author loop, with the affiliation loop nested in it, builds exactly the `orcids` list and the `affiliations` set that `AuthorFactsOf` specifies, and raise exactly when it does |
| FetchArticles.AddAffiliationTexts | src/fetch_articles.py:60-63 | the affiliation loop adds to the set exactly the texts the filtering loop over the items keeps, and raises exactly when that loop does |
| FetchArticles.AuthorFactsStopsAt | src/fetch_articles.py:54-63 | once an author has raised, the later authors change nothing |
| FetchArticles.OrcidOfMeaning | src/fetch_articles.py:55-57 | `OrcidOf`: an author contributes an ORCID exactly when its `authorId` is a truthy dict whose `type` is `"ORCID"`; the ORCID is `authorId.value` |
| FetchArticles.AuthorOrcids | src/fetch_articles.py:49-57 | the `orcids` list of `AuthorFactsOf` is the filtering loop over the authors that keeps each author's ORCID |
| FetchArticles.StepTexts | src/fetch_articles.py:60-63 | the texts one author adds are exactly the truthy `affiliation` values of that author's affiliation items |
| FetchArticles.AuthorAffiliations | src/fetch_articles.py:49-63 | the affiliation set of `AuthorFactsOf` holds exactly the truthy affiliation texts of all authors |
| FetchArticles.AffiliationTextMeaning | src/fetch_articles.py:61-63 | `AffiliationText`: an affiliation item adds a text exactly when it is a dict whose `affiliation` is truthy and hashable |
| FetchArticles.TruthyValuesExact | src/fetch_articles.py:66-91 | a sub-list built by `TruthyValues` keeps, in item order, exactly the items whose value is truthy; each kept value is that item's value, and none is empty |
| FetchArticles.NormaliseResult | src/fetch_articles.py:49-120 | one iteration of the result loop, running the author loop as a loop, builds exactly the record `NormaliseArticle` specifies, and raises exactly when it does |
| FetchArticles.FetchArticlesFromPubmedIds | src/fetch_articles.py:28-120 | the query posted is the `" OR "` join of one clause per id; the result loop builds exactly the article list `NormaliseResults` specifies, and raises exactly when it does |
| FetchArticles.OneArticlePerResult | src/fetch_articles.py:47-98 | `NormaliseResults` gives exactly one article per result object, in the same order; a missing `resultList` or a missing `result` gives no articles |
| FetchArticles.NormaliseResultsRaises | src/fetch_articles.py:47-98 | the result loop finishes exactly when no result object raises |
| FetchArticles.ArticleScalars | src/fetch_articles.py:99-114 | in the record `NormaliseArticle` builds, `pubmed_id` is a truthy `id`, otherwise `pmid`; `is_open_access` holds exactly when `isOpenAccess` is the string `"Y"`; `cited_by_count` is `citedByCount` when present, even when null, and otherwise 0; `doi`, `title`, `author_string`, `year`, `page_info`, `abstract`, `publication_status` and `publication_model` are copied from their keys, or null when absent |
| FetchArticles.ArticleJournal | src/fetch_articles.py:97-108 | in a normalised record, `journalInfo` and `journalInfo.journal` were dicts when present; `journal_title` is `journalInfo.journal.title`, `journal_volume` is `journalInfo.volume` and `journal_issue` is `journalInfo.issue`, each null when absent |
| FetchArticles.JournalNotDictRaises | src/fetch_articles.py:97 | a `journalInfo`, or a `journalInfo.journal`, that is present but not a dict makes the result raise; when nothing earlier in the iteration raises, it raises AttributeError |
| FetchArticles.PdbLinkedMeaning | src/fetch_articles.py:94 | `PdbLinked`: `pdb_linked` is `"PDB" in dbName`; a missing container or a missing `dbName` gives false |
| FetchArticles.ArticleSubLists | src/fetch_articles.py:66-91 | the four sub-lists are the truthy `descriptorName`, `name`, `agency` and `url` values of their containers; none of their elements is empty |
| FetchArticles.ArticleOrcids | src/fetch_articles.py:54-57 | `orcids` has one entry per author whose `authorId` has type `"ORCID"`, in author order; each entry is that author's `authorId.value` |
| FetchArticles.ArticleAffiliations | src/fetch_articles.py:60-63 | `affiliations` holds exactly the truthy affiliation texts of the article's authors |
| FetchArticles.AbsentSubListIsEmpty | src/fetch_articles.py:66-91 | an absent sub-list container gives an empty sub-list |
| FetchArticles.OrcidAuthorExample | src/fetch_articles.py:54-57 | a result whose only author has an ORCID-typed `authorId` yields that one ORCID |
| Orchestrator.Flatten | main.py:24 | flattening raises only TypeError |
| Orchestrator.FlattenMembers | main.py:24-25 | a value is collected exactly when some entry with a `pubmed_id` yields it |
| Orchestrator.FlattenRaises | main.py:24 | flattening raises exactly when some entry's `pubmed_id` is not iterable |
| Orchestrator.PubmedIds | main.py:25 | every collected id is hashable; building the set raises only TypeError |
| Orchestrator.PubmedIdsMembers | main.py:24-25 | the id set exists exactly when flattening succeeds and every value is hashable; it then holds exactly the values that some entry's `pubmed_id` yields |
| Orchestrator.KeylessEntryIgnored | main.py:24 | an entry without a `pubmed_id` key contributes nothing, wherever it stands |
| Orchestrator.AsList | main.py:25 | `list(set(...))` has no duplicates, the same members as the set, and as many elements as the set |
| Orchestrator.FormatAll | src/fetch_articles.py:28 | one text per id, in order; a string id is written as itself |
| Orchestrator.DerivedIdsOfRecords | main.py:24 | over the records the hit filter builds, flattening succeeds exactly when every record's `pubmed_id` is iterable, and a value is collected exactly when some record's `pubmed_id` yields it |
| Orchestrator.DedupExample | main.py:25 | records citing `"123"` twice and `"456"` once give exactly `{"123", "456"}`, and a two-element list |
| Orchestrator.ListedIdsQuery | src/fetch_articles.py:28-29 | for string ids without `)`, the query built from `list(set(...))` parses back to the ids, each exactly once |
| Orchestrator.QueryNamesEachIdOnce | main.py:24-31 | when the records cite string ids without `)`, `main` reaches the article fetch, and its query names exactly the collected ids, each once |
| Orchestrator.ArticleFetchOnlyWithIds | main.py:20-31 | `Run`, the whole of `main`: the article fetch is reached exactly when the PDB records and the id set were derived and the set is not empty; it posts one clause per collected id, each id once; the run's articles are the normalised Europe PMC results |
| Orchestrator.HaltsWithoutIds | main.py:26-28 | with no PubMed ids, `main` stops after the PDB fetch and never builds a query |

## Left out

- The HTTP calls, `raise_for_status` and the JSON decoding of response bodies (src/fetch_pdb.py:41-43, src/fetch_articles.py:43-45). These are network and library calls. The model starts from the parsed value, and `Orchestrator.Run` takes both parsed responses as parameters.
- The JSON file writes (src/fetch_pdb.py:63-64, src/fetch_articles.py:122-123). The data they would write is the value each model function returns.
- All `structlog` logging. It is observability only.
- The date window of the PDB search (src/fetch_pdb.py:26-29). It depends on the wall clock and on date formatting.
- The URL, request parameter and header constants. They are fixed configuration with no behaviour.
- The `__main__` entry point.
- JSON floating-point numbers. `Json` has integers only. Two float behaviours are lost: `set()` in `main` merges `1` and `1.0` into one id, and `str()` writes `1.0` as `"1.0"` in the query.
- Python's `True == 1` and `hash(True) == hash(1)`. In Python, `{True, 1}` has one member. The model's sets keep `JBool(true)` and `JInt(1)` apart.
- Dict order. Iterating a dict yields its keys in insertion order. The model uses the order only where it cannot matter: a non-empty dict raises at its first key's `.get`, and main's flattened values go straight into a set.
- PyJson.Members: for a non-empty dict being iterated in a loop whose body calls `.get` on each item, the model raises AttributeError at once. Python first sees the key, which is a string, whose `.get` then raises. The outcome is the same.
- Orchestrator.AsList: the list order of `list(set(...))` depends on Python's hashing. The model fixes one order by choice and proves only that it lists every member once. The same holds for the `affiliations` list, which the model keeps as its set.
- Orchestrator.Run: the run is a ghost function, because `AsList` chooses an order. Its contract is stated by `ArticleFetchOnlyWithIds`, `QueryNamesEachIdOnce` and `HaltsWithoutIds`.
- FetchArticles.QueryRoundTrip: it covers ids that contain no `)`. For other ids the clause boundaries are ambiguous. Europe PMC ids are digits.
- FetchArticles.ClausesRoundTrip: it covers only non-empty lists of ids that contain no `)`; the empty list is handled by `QueryRoundTrip`. The restriction cannot be lifted: the id list `["a src:med) OR (ext_id:b"]` and the list `["a", "b"]` give the same query (`FetchArticles.QueryAmbiguous`).

## Notes on the code

Where the code and its description differ, the model follows the code:

- A hit whose `fields` is present but `null` raises AttributeError at `fields.get('PUBMED', [])`. It is not dropped: the `{}` default applies only when the key is absent.
- `cited_by_count` is `result.get("citedByCount", 0)`, so a present `null` stays null. Only an absent key gives 0.
- A `PUBMED` value that is a string is iterated character by character in `main`. Each character becomes its own id.
