# WorldCat reconciliation service, modelled in Dafny

This project models the matching core of the WorldCat reconciliation
service, an OpenRefine-style reconciliation endpoint backed by the
WorldCat catalog search, and proves properties of the model.

- **Normaliser.** `preprocess_string` turns the 32 ASCII punctuation
  characters into spaces and lower-cases the text. It then collapses runs of
  spaces and strips surrounding whitespace (`Normalize`).
- **Scorer.** `calculate_score` is an edit-distance score in 0..100. The
  edit distance is a recursive specification function, with a row-by-row
  dynamic-programming method proved equal to it (`EditDistance`, `Scoring`).
- **URL builders.** The search URL with its optional author, type and year
  clauses, the metadata URL and the editions page URLs, including
  `quote_plus` over UTF-8 (`Urls`).
- **WorldCat client.** The class `WorldcatApi.Api` holds the session
  generation and the cache:
  - `get` makes at most five attempts in all and renews the session after
    each HTTP error;
  - `search` filters and scores records and writes the hits to the cache;
  - `get_metadata` looks up a single record, the cache first;
  - `get_all_editions` is the editions paginator.

  Each method is proved equal to a specification function. `Get` is
  proved against `Retry` on a session generation, `GetAllEditions`
  against `Collected` and `IsFirstStop`, and the other methods against
  functions on an `ApiState` value.
- **Endpoints.** `process_queries` and `process_extend` of `main.py`
  (`Service`).

The catalog is a parameter: `Upstream` maps a session generation and a URL
to a reply (a status and a decoded body). A new session is a new
generation.

## Model

| member | source | states |
|---|---|---|
| `Normalize.Preprocess` | worldcat_api.py:165-169 | the result has no ASCII punctuation, no upper-case ASCII letter, no two adjacent spaces, no leading or trailing whitespace, and is never longer than the input |
| `Normalize.BlankPunctuation` | worldcat_api.py:168 | same length as the input, and no ASCII punctuation is left |
| `Normalize.Lower` | worldcat_api.py:168 | same length, no upper-case ASCII letter, punctuation-freedom is kept |
| `Normalize.CollapseSpaces` | worldcat_api.py:169 | never longer, no two adjacent spaces, first and last characters kept, punctuation- and upper-case-freedom kept |
| `Normalize.Strip` | worldcat_api.py:169 | the result has no whitespace at either end and is never longer than the input |
| `Normalize.StripIsSlice` | worldcat_api.py:169 | stripping only removes characters at the two ends: the result is the slice of the input that starts after the leading whitespace |
| `Normalize.LeadingIsWhitespace` | worldcat_api.py:169 | every character that stripping drops at the front is whitespace |
| `Normalize.TrailingIsWhitespace` | worldcat_api.py:169 | every character that stripping drops at the back is whitespace |
| `Normalize.StripKeepsNormalForm` | worldcat_api.py:169 | stripping a collapsed, lower-cased, punctuation-free text gives the normal form |
| `Normalize.CollapseSpacesFixesCollapsed` | worldcat_api.py:169 | collapsing leaves a string without double spaces unchanged |
| `Normalize.PreprocessIdempotent` | worldcat_api.py:165-169 | preprocessing twice equals preprocessing once |
| `Normalize.NormalizedIsFixpoint` | worldcat_api.py:165-169 | every string already in normal form is a fixpoint of preprocessing |
| `Normalize.PreprocessJoinsWords` | worldcat_api.py:165-169 | two texts joined by one space, where the first ends and the second starts with a character that is neither whitespace nor punctuation, preprocess to the two preprocessed texts joined by one space |
| `Normalize.BlankedAppend` | worldcat_api.py:168 | blanking and lower-casing a concatenation is the concatenation of the two blanked, lower-cased parts |
| `Normalize.CollapsedJoin` | worldcat_api.py:169 | a single space between two characters that are not spaces survives collapsing, and the two sides collapse separately |
| `Normalize.CollapseSpacesAppend` | worldcat_api.py:169 | after a character that is not a space, collapsing treats the two sides separately |
| `Normalize.StrippedJoin` | worldcat_api.py:169 | stripping two texts joined by a space, where they meet at non-whitespace, strips each text's outer end only |
| `Normalize.StripLeadingAppend` | worldcat_api.py:169 | leading whitespace is stripped only up to the first non-whitespace character |
| `Normalize.StripTrailingPrepend` | worldcat_api.py:169 | trailing whitespace is stripped only back to the last non-whitespace character |
| `Normalize.PreprocessKeepsText` | worldcat_api.py:165-169 | preprocessing loses no visible character: the non-whitespace characters are those of the lower-cased, punctuation-blanked input |
| `EditDistance.Distance` | worldcat_api.py:162 | the edit distance is at most the sum of the lengths, and equals the other string's length when one string is empty |
| `EditDistance.DistanceZeroIff` | worldcat_api.py:162 | the edit distance is 0 exactly when the two strings are equal |
| `EditDistance.DistanceAtLeastLengthGap` | worldcat_api.py:162 | the distance is at least the difference of the lengths |
| `EditDistance.DistanceAtMostLonger` | worldcat_api.py:162 | the distance is at most the length of the longer string |
| `EditDistance.DistanceCell` | worldcat_api.py:162 | the recurrence of one table cell in terms of its three neighbours |
| `EditDistance.NextRow` | worldcat_api.py:162 | from the row of distances for `a[..i]` it computes the row for `a[..i+1]` |
| `EditDistance.Levenshtein` | worldcat_api.py:162 | the dynamic-programming loop returns exactly the edit distance |
| `Scoring.ScoreFromDistance` | worldcat_api.py:163 | the truncated percentage is at most 100; it is 100 iff the distance is 0; it is 0 once the distance reaches the title length; it is positive iff `100*(n-d) >= n` |
| `Scoring.ScoreMonotone` | worldcat_api.py:162-163 | a larger distance never gives a larger score |
| `Scoring.CalculateScore` | worldcat_api.py:159-163 | for a non-empty query title: at most 100, exactly 100 iff the preprocessed record title equals the query, 0 once the distance reaches the query length |
| `Scoring.LongTitlesScoreZero` | worldcat_api.py:159-163 | a record title at least twice as long as the query scores 0 |
| `Urls.QuotePlus` | worldcat_api.py:107-113 | every output character is an ASCII letter or digit, one of `_ . - ~`, `+` or `%` |
| `Urls.QuotePlusPlainText` | worldcat_api.py:107-113 | on text of ASCII letters, digits, `_ . - ~` and spaces, quoting only turns spaces into `+` |
| `Urls.SearchUrlParameters` | worldcat_api.py:106-116 | the URL up to its first `&` is the base path plus the `q` clause, whatever the title and author; something follows iff a type or a year is truthy, and it is the item-type filter iff the type is truthy |
| `Urls.FilterClausesShape` | worldcat_api.py:112-116 | the filters are empty iff neither type nor year is truthy; otherwise they start with `&`, followed by the item-type filter iff the type is truthy |
| `Urls.SearchUrlStartsWithTitle` | worldcat_api.py:106-107 | a search URL starts with the search endpoint and the quoted title, whatever follows |
| `Urls.SearchUrlEndsWithYear` | worldcat_api.py:115-116 | a search URL with a truthy year ends with `&datePublished=<year>-<year>`, so the year filter comes last |
| `Urls.MetadataUrl` | worldcat_api.py:136 | the URL is the search endpoint with `no:` followed by digits only, which read back as the OCLC number |
| `Urls.EditionsUrlOffset` | worldcat_api.py:147 | a page URL of `EditionsUrl` asks for ten records of the given number and ends with digits only, which read back as the offset |
| `Urls.ParseNatToString` | worldcat_api.py:132 | the decimal rendering of an OCLC number reads back as that number |
| `Urls.NatToStringInjective` | worldcat_api.py:132 | different numbers have different cache keys |
| `Urls.EditionsUrlInjective` | worldcat_api.py:147 | different offsets give different page URLs |
| `WorldcatApi.Retry` | worldcat_api.py:86-97 | uses at most the given number of sessions; every session before the final one answered with an HTTP error; on success the final session answered without an error and its body is returned; on failure all attempts failed and the last status is raised |
| `WorldcatApi.Api.Get` | worldcat_api.py:86-97 | the retry loop's result and new session equal `Retry` with five attempts |
| `WorldcatApi.SelectPicksPositives` | worldcat_api.py:120-125 | the selection is the in-order subsequence of exactly the records with a positive score |
| `WorldcatApi.SelectIndicesAlign` | worldcat_api.py:120-125 | the selected positions increase and line up with the selected entries |
| `WorldcatApi.SelectIndicesExact` | worldcat_api.py:120-125 | a position is selected iff its record scores above 0 |
| `WorldcatApi.ScoreOf` | worldcat_api.py:122-123 | a positive score belongs to a titled record and is its `calculate_score` |
| `WorldcatApi.KeptSelectsHits` | worldcat_api.py:120-125 | the kept hits are, in order, exactly the titled records with a positive score, each carrying its score, which is at most 100 |
| `WorldcatApi.CacheAfter` | worldcat_api.py:126-127 | the cache afterwards holds the old keys plus the OCLC numbers of the hits |
| `WorldcatApi.CacheHoldsLastHit` | worldcat_api.py:126-127 | a hit not followed by another hit with the same number is what the cache holds for that number |
| `WorldcatApi.CacheKeepsOthers` | worldcat_api.py:126-127 | entries for numbers that no hit has are untouched |
| `WorldcatApi.KeptStep` | worldcat_api.py:121-125 | one more record appends itself to the hits iff it scores above 0 |
| `WorldcatApi.CacheAfterStep` | worldcat_api.py:126-127 | one more hit is written into the cache last |
| `WorldcatApi.ScreenStep` | worldcat_api.py:121-127 | one more record after a prefix that raised nothing: an untitled record changes nothing; a titled one divides by zero under an empty title, and otherwise is appended and cached iff it scores above 0 |
| `WorldcatApi.ScreenDividesByZero` | worldcat_api.py:122-123 | with an empty title, any titled record makes the scan fail with a division by zero and leaves the cache alone |
| `WorldcatApi.SearchResults` | worldcat_api.py:99-128 | each hit has a title and its score in 1..100 for the preprocessed query; the session advances by at most five; the cache grows only by the hits' numbers; failures are HTTP errors or the division by zero of an empty preprocessed title, and leave the cache as it was |
| `WorldcatApi.Api.Search` | worldcat_api.py:99-128 | the result and the new state equal `SearchSpec` |
| `WorldcatApi.Api.ScreenRecords` | worldcat_api.py:120-128 | the record loop's outcome and cache equal `Screen`: a division by zero at the first titled record when the title is empty, else the kept hits, cached when a cache is configured |
| `WorldcatApi.SearchThenMetadata` | worldcat_api.py:126-134 | with a cache, `get_metadata` of a number that `search` just found serves that record from the cache, whatever the catalog answers later |
| `WorldcatApi.Api.GetMetadata` | worldcat_api.py:130-141 | the result and the new state equal `MetadataSpec`: a cache hit without a fetch; otherwise the only record iff exactly one came back, else nothing |
| `WorldcatApi.FirstStopUnique` | worldcat_api.py:151-155 | the page count at which the paginator stops is unique |
| `WorldcatApi.CollectedAtLeastPages` | worldcat_api.py:149 | with non-empty pages, `k` pages collect at least `k` records |
| `WorldcatApi.NonEmptyPagesTerminate` | worldcat_api.py:146-156 | if every page is non-empty, the stop test holds after at most `max_results` pages, so the loop ends |
| `WorldcatApi.EditionsLengthBound` | worldcat_api.py:149-154 | with pages of at most ten records, the result is shorter than `max_results + 10` |
| `WorldcatApi.EditionsOvershoot` | worldcat_api.py:149-155 | with full pages and `max_results` 15, the result has 20 records: no truncation |
| `WorldcatApi.Api.GetAllEditions` | worldcat_api.py:143-157 | the result is the in-order concatenation of the pages at offsets 1, 11, 21, … up to the first page count that meets the stop test |
| `WorldcatApi.Api.constructor` | worldcat_api.py:24-33 | a fresh client has the first session; with a Redis endpoint its cache is whatever the server already holds, without one it is empty |
| `WorldcatApi.TypeName` | worldcat_api.py:34-55 | `types.get(code)`: only a lower-case code has a name, and every name is non-empty |
| `WorldcatApi.TypeNameOfLowered` | worldcat_api.py:34-55 | lower-casing a code of the table finds that code's name again, so the lookup after `.lower()` in main.py:94-96 never misses a table entry |
| `Service.HintsAreLastValues` | main.py:71-77 | the property scan fails iff some property has no `pid`, or is an `author`/`publication_year` property without `v`; otherwise author and year are the values of the last matching property, `None` if there is none |
| `Service.HintsOf` | main.py:73-77 | a failing scan fails with a `KeyError` on `pid` or `v` |
| `Service.ExtractHints` | main.py:71-77 | the property loop returns exactly `HintsOf` |
| `Service.HintsFailureSticks` | main.py:73-77 | the first failing property decides the scan's error |
| `Service.CandidateOf` | main.py:88-101 | a hit without `generalFormat` is a `KeyError`; otherwise the candidate has the hit's number, title and score, `match` true, and one type entry; its id has the format's length, each upper-case ASCII letter moved to lower case and every other character kept; its name is the `types` lookup of that id, which is the table's name when the format is a table code |
| `Service.Candidates` | main.py:86-103 | succeeds iff every hit has a format; then it gives one candidate per hit, in order, with the hit's number, title and score, `match` true, and a one-element type list of the lower-cased format and its `types` name |
| `Service.AnswerWellFormed` | main.py:69-103 | answered candidates have `match`, a score in 1..100 and one type entry whose name is the lookup of its id; a missing `query` is a `KeyError` and leaves the state as it was; failures are `KeyError`, HTTP errors or the division by zero |
| `Service.ReconcileAnswersEveryKey` | main.py:65-105 | a successful batch answers exactly the keys of the batch, with well-formed candidates only |
| `Service.KeysAppend` | main.py:69 | the keys of a batch are those of its prefix plus the last key |
| `Service.ReconcileFailureSticks` | main.py:69-105 | an error in one query ends the batch: later queries change neither the outcome nor the state |
| `Service.ProcessQueries` | main.py:65-105 | the batch loop's result and the client's new state equal `Reconcile` |
| `Service.Answer` | main.py:71-103 | the work for one query equals `AnswerQuery`: scan the properties, read `query`, search, build the candidates |
| `Service.OclcStrings` | main.py:117 | one string per edition, in order, each the decimal rendering that reads back as the edition's number |
| `Service.ProcessExtend` | main.py:108-119 | a missing `properties` is a `KeyError`; the first property without `id` is a `KeyError`, and the editions property without `ids` is a `TypeError`; otherwise `meta` has one entry per requested editions property, `rows` has every requested id when that property was requested (none otherwise), and each row is the editions of that id under `oclc` |
| `Service.EditionsRows` | main.py:114-118 | the id loop adds a row for every id and keeps every row equal to the editions of its id |
| `Service.RowsUpdate` | main.py:115-118 | writing the row of a paginator result keeps every row the editions row of its id |
| `Service.IdSetStep` | main.py:114 | the ids of one more list element are the earlier ids plus that element |
| `Service.ExtendErrorSticks` | main.py:111-114 | the first failing property decides the error |

Notes on what the code does, which the model follows:

- With an empty preprocessed title, the first titled record raises a
  division by zero.
- `search` sends the preprocessed title upstream, not the raw title.
- Every candidate gets a one-entry type list. A record without
  `generalFormat` raises a `KeyError`.
- `get_all_editions` does not truncate to `max_results`. It can return up
  to nine more records than that.
- The rows of `process_extend` use the key `oclc`, while the `meta` entry
  has the id `oclc_of_all_editions`.

## Left out

- Selenium cookie retrieval and `create_session` (worldcat_api.py:80-84,
  171-210). A new session is modelled only as the next session generation.
- Redis connection set-up, the `maxmemory` setting and LRU eviction. The
  cache is a map that never forgets, and a cached record comes back equal
  to the record stored (JSON round trip).
- HTTP transport: exceptions other than an HTTP error status, headers, and
  JSON decoding. A reply is a status and an already decoded body.
- `WorldcatApi.Api.GetAllEditions`: the paginator is required to stop
  (`EditionsTerminate`). The source has no iteration bound and loops
  forever on a catalog that never meets the stop test.
- `Service.ProcessExtend`: likewise requires the paginator to stop for
  every id, when the request asks for the editions property.
- `Scoring.CalculateScore`: the score is the exact integer value of
  `int(max((1 - d/n)*100, 0))`. Floating-point rounding, which can differ
  by one in rare cases, is not modelled.
- `Normalize.Lower`: only ASCII letters are lowered. Unicode case mapping
  beyond ASCII is not modelled.
- The Levenshtein package is not part of this model. It is specified by
  the standard recursive edit distance.
- JSON values of query properties (`v`), of `type` and of extend `ids` are
  modelled as strings, and `generalFormat` as an optional string. A
  non-string value and the errors it would raise are not modelled.
- A batch is a list of key and query pairs. A decoded JSON object has
  distinct keys, so a list that repeats a key has no counterpart in the
  code. On such a list the model searches both queries and keeps the later
  answer.
- A JSON `null` is modelled like a missing key. That is harmless for the
  falsy fields `type` and `title`, and for the extend `ids`, which the code
  reads with `.get` anyway. Elsewhere the code behaves differently:
  - a property with `pid: null` is skipped (main.py:73-76), while the model
    raises a `KeyError` for a missing `pid`; the same holds for an extend
    property with `id: null` (main.py:112);
  - `v: null` sets the author or year back to `None` (main.py:75, 77),
    while the model raises a `KeyError`;
  - `properties: null` makes the loop raise a `TypeError` (main.py:73 and
    main.py:111), while the model reads no properties for a query and a
    `KeyError` for an extend request;
  - `query: null` fails with an `AttributeError` in `preprocess_string`,
    and `generalFormat: null` with an `AttributeError` on `.lower()`
    (main.py:80, 93), where the model raises a `KeyError`;
  - `briefRecords: null` raises a `TypeError` in `search`, `get_metadata`
    and `get_all_editions` (worldcat_api.py:121, 138, 149), while the model
    reads no records;
  - `numberOfRecords: null` never equals the count in the paginator's stop
    test (worldcat_api.py:152), while the model reads it as 0.
- A record's `oclcNumber` is a natural number. A missing `oclcNumber`
  raises a `KeyError` in the code (worldcat_api.py:127, main.py:89, 117),
  and a non-integer one would be passed on as it is; the model admits
  neither.
- The `subtypes` table (worldcat_api.py:56-78) is not used by the modelled
  code.
- The FastAPI application in main.py is not modelled: routes, CORS, the
  service metadata document, the JSONP callback, `preview` rendering and
  the uvicorn entry point. The batches reach the model already decoded.
