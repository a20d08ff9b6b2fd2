/** The `WorldcatAPI` client: the retrying `get`, the title `search` that
    scores and filters the catalog's records and writes the hits to the
    cache, the single-record `get_metadata` lookup, and the `get_all_editions`
    paginator.

    Each operation is specified by a function on an `ApiState` (the session
    generation, the cache and whether a cache is configured); the class `Api`
    holds that state in fields and its methods are proved against those
    functions. The catalog is the `Upstream` oracle. */
module WorldcatApi {
  import opened Wrappers
  import opened Catalog
  import opened Normalize
  import opened Scoring
  import opened Urls

  /** Attempts `get` makes before giving up. */
  const MaxAttempts: nat := 5

  /** The catalog's general format codes and their display names. */
  const Types: map<string, string> := map[
    "book" := "Book",
    "audiobook" := "Audiobook",
    "artchap" := "Article, Chapter",
    "archv" := "Archival Material",
    "music" := "Music",
    "snd" := "Sound Recording",
    "msscr" := "Musical Score",
    "game" := "Game",
    "video" := "Video",
    "toy" := "Toy",
    "vis" := "Visual Material",
    "map" := "Map",
    "jrnl" := "Journal, Magazine",
    "news" := "Newspaper",
    "intmm" := "Interactive Multimedia",
    "compfile" := "Computer File",
    "kit" := "Kit",
    "object" := "Object",
    "web" := "Website",
    "encyc" := "Encyclopedia Article"
  ]

  /** `types.get(code)`: only a lower-case code has a name, and every name
      is non-empty. */
  function TypeName(code: string): (r: Option<string>)
    ensures r.Some? ==> NoUpper(code) && |r.value| > 0
  {
    if code in Types then Some(Types[code]) else None
  }

  /** Lower-casing a code of the table finds that code's name again. */
  lemma TypeNameOfLowered(code: string)
    ensures code in Types ==> TypeName(Lower(code)) == Some(Types[code])
  {
    if code in Types {
      assert TypeName(code).Some?;
      LowerKeepsLowerCase(code);
    }
  }

  /** What the client keeps between calls: the generation of its
      authenticated session (a fresh session is a new generation), the
      cache of records keyed by OCLC number, and whether a cache is
      configured at all. */
  datatype ApiState = ApiState(session: nat, cache: map<nat, Record>, hasCache: bool)

  /** How a call of `get` ends: the body or the last HTTP status, and the
      session generation it leaves behind. */
  datatype Attempt = Attempt(outcome: Result<Body, nat>, session: nat)

  // ---------------------------------------------------------------------
  // get: retry with a fresh session after each HTTP error

  /** `get(url)` with `retries` attempts left, on session `session`: the
      first reply that is not an HTTP error is returned on the session that
      got it; after `retries` HTTP errors the last status is raised, each
      error having replaced the session. */
  function Retry(upstream: Upstream, url: string, session: nat, retries: nat): (a: Attempt)
    requires retries > 0
    ensures session <= a.session <= session + retries
    ensures forall s :: session <= s < a.session ==> IsHttpError(upstream(s, url).status)
    ensures a.outcome.Success? ==>
              && a.session < session + retries
              && !IsHttpError(upstream(a.session, url).status)
              && a.outcome.value == upstream(a.session, url).body
    ensures a.outcome.Failure? ==>
              && a.session == session + retries
              && a.outcome.error == upstream(a.session - 1, url).status
    decreases retries
  {
    var reply := upstream(session, url);
    if !IsHttpError(reply.status) then Attempt(Success(reply.body), session)
    else if retries == 1 then Attempt(Failure(reply.status), session + 1)
    else Retry(upstream, url, session + 1, retries - 1)
  }

  // ---------------------------------------------------------------------
  // search: score, filter, cache

  /** The scored records whose score is positive, in order. */
  function Select(score: Record -> nat, records: seq<Record>): (hits: seq<Scored>)
    ensures |hits| <= |records|
    ensures forall j :: 0 <= j < |hits| ==> hits[j].score == score(hits[j].record) > 0
    decreases |records|
  {
    if records == [] then []
    else
      var rest := Select(score, records[..|records| - 1]);
      var last := records[|records| - 1];
      if score(last) > 0 then rest + [Scored(score(last), last)] else rest
  }

  /** The positions in `records` of the entries `Select` returns. */
  ghost function SelectIndices(score: Record -> nat, records: seq<Record>): seq<nat>
    decreases |records|
  {
    if records == [] then []
    else
      var rest := SelectIndices(score, records[..|records| - 1]);
      if score(records[|records| - 1]) > 0 then rest + [|records| - 1] else rest
  }

  /** `Select` is an in-order selection of exactly the positively scored
      records: its entries sit at strictly increasing positions of
      `records`, and a position is selected if and only if its record
      scores above 0. */
  lemma SelectPicksPositives(score: Record -> nat, records: seq<Record>)
    ensures |SelectIndices(score, records)| == |Select(score, records)|
    ensures forall j :: 0 <= j < |SelectIndices(score, records)| ==>
              && SelectIndices(score, records)[j] < |records|
              && Select(score, records)[j].record == records[SelectIndices(score, records)[j]]
    ensures forall j, k :: 0 <= j < k < |SelectIndices(score, records)| ==>
              SelectIndices(score, records)[j] < SelectIndices(score, records)[k]
    ensures forall i :: 0 <= i < |records| ==> (i in SelectIndices(score, records) <==> score(records[i]) > 0)
  {
    SelectIndicesAlign(score, records);
    SelectIndicesExact(score, records);
  }

  /** The selected positions are increasing and line up with the entries
      `Select` returns. */
  lemma {:induction false} SelectIndicesAlign(score: Record -> nat, records: seq<Record>)
    ensures |SelectIndices(score, records)| == |Select(score, records)|
    ensures forall j :: 0 <= j < |SelectIndices(score, records)| ==>
              && SelectIndices(score, records)[j] < |records|
              && Select(score, records)[j].record == records[SelectIndices(score, records)[j]]
    ensures forall j, k :: 0 <= j < k < |SelectIndices(score, records)| ==>
              SelectIndices(score, records)[j] < SelectIndices(score, records)[k]
    decreases |records|
  {
    if records != [] {
      var n := |records| - 1;
      var init := records[..n];
      SelectIndicesAlign(score, init);
      var hits0, idx0 := Select(score, init), SelectIndices(score, init);
      var hits, idx := Select(score, records), SelectIndices(score, records);
      assert forall i :: 0 <= i < n ==> records[i] == init[i];
      if score(records[n]) > 0 {
        assert hits == hits0 + [Scored(score(records[n]), records[n])];
        assert idx == idx0 + [n];
      } else {
        assert hits == hits0;
        assert idx == idx0;
      }
    }
  }

  /** A position is selected exactly when its record scores above 0. */
  lemma {:induction false} SelectIndicesExact(score: Record -> nat, records: seq<Record>)
    ensures forall i :: 0 <= i < |records| ==> (i in SelectIndices(score, records) <==> score(records[i]) > 0)
    ensures forall x :: x in SelectIndices(score, records) ==> x < |records|
    decreases |records|
  {
    if records != [] {
      var n := |records| - 1;
      var init := records[..n];
      SelectIndicesExact(score, init);
      var idx0, idx := SelectIndices(score, init), SelectIndices(score, records);
      assert forall i :: 0 <= i < n ==> records[i] == init[i];
      if score(records[n]) > 0 {
        assert idx == idx0 + [n];
      } else {
        assert idx == idx0;
      }
    }
  }

  /** The score `search` computes for a record: `calculate_score` when the
      record has a title, and none (0) otherwise. */
  function ScoreOf(pre: string, r: Record): (s: nat)
    requires pre != []
    ensures s <= 100
    ensures s > 0 ==> HasTitle(r) && s == CalculateScore(pre, r)
  {
    if HasTitle(r) then CalculateScore(pre, r) else 0
  }

  /** The hits among `records`, in order, each with its score. */
  function Kept(pre: string, records: seq<Record>): seq<Scored>
    requires pre != []
  {
    Select(r => ScoreOf(pre, r), records)
  }

  /** Positions in `records` of the hits. */
  ghost function KeptIndices(pre: string, records: seq<Record>): seq<nat>
    requires pre != []
  {
    SelectIndices(r => ScoreOf(pre, r), records)
  }

  /** Every hit has a title and the score `calculate_score` gives it, in
      1..100; the hits are exactly the records with a title and a positive
      score, at increasing positions, in order. */
  lemma KeptSelectsHits(pre: string, records: seq<Record>)
    requires pre != []
    ensures forall h :: h in Kept(pre, records) ==>
              HasTitle(h.record) && h.score == CalculateScore(pre, h.record) && 0 < h.score <= 100
    ensures var hits, idx := Kept(pre, records), KeptIndices(pre, records);
            && |idx| == |hits|
            && (forall j :: 0 <= j < |idx| ==> idx[j] < |records| && hits[j].record == records[idx[j]])
            && (forall j, k :: 0 <= j < k < |idx| ==> idx[j] < idx[k])
            && (forall i :: 0 <= i < |records| ==>
                  (i in idx <==> HasTitle(records[i]) && CalculateScore(pre, records[i]) > 0))
  {
    var score := r => ScoreOf(pre, r);
    SelectPicksPositives(score, records);
    var hits := Kept(pre, records);
    forall h | h in hits
      ensures HasTitle(h.record) && h.score == CalculateScore(pre, h.record) && 0 < h.score <= 100
    {
      var j :| 0 <= j < |hits| && hits[j] == h;
      assert h.score == ScoreOf(pre, h.record) > 0;
    }
    forall i | 0 <= i < |records|
      ensures score(records[i]) > 0 <==> HasTitle(records[i]) && CalculateScore(pre, records[i]) > 0
    {
      assert score(records[i]) == ScoreOf(pre, records[i]);
    }
  }

  /** The cache after `search` wrote each hit under its OCLC number, in
      order. */
  function CacheAfter(cache: map<nat, Record>, hits: seq<Scored>): (c: map<nat, Record>)
    ensures c.Keys == cache.Keys + set h | h in hits :: h.record.oclcNumber
    decreases |hits|
  {
    if hits == [] then cache
    else
      var last := hits[|hits| - 1];
      CacheAfter(cache, hits[..|hits| - 1])[last.record.oclcNumber := last.record]
  }

  /** After the writes, a hit's number maps to that hit's record unless a
      later hit carries the same number. */
  lemma {:induction false} CacheHoldsLastHit(cache: map<nat, Record>, hits: seq<Scored>, j: nat)
    requires j < |hits|
    requires forall i :: j < i < |hits| ==> hits[i].record.oclcNumber != hits[j].record.oclcNumber
    ensures CacheAfter(cache, hits)[hits[j].record.oclcNumber] == hits[j].record
    decreases |hits|
  {
    var n := |hits| - 1;
    var init := hits[..n];
    var key := hits[j].record.oclcNumber;
    var before := CacheAfter(cache, init);
    assert CacheAfter(cache, hits) == before[hits[n].record.oclcNumber := hits[n].record];
    if j < n {
      assert init[j] == hits[j];
      assert hits[n].record.oclcNumber != key;
      forall i | j < i < |init| ensures init[i].record.oclcNumber != init[j].record.oclcNumber {
        assert init[i] == hits[i];
      }
      CacheHoldsLastHit(cache, init, j);
      assert before[key] == hits[j].record;
    }
  }

  /** Numbers no hit carries keep their old entry. */
  lemma {:induction false} CacheKeepsOthers(cache: map<nat, Record>, hits: seq<Scored>, key: nat)
    requires key in cache
    requires forall i :: 0 <= i < |hits| ==> hits[i].record.oclcNumber != key
    ensures CacheAfter(cache, hits)[key] == cache[key]
    decreases |hits|
  {
    if hits != [] {
      var init := hits[..|hits| - 1];
      assert forall i :: 0 <= i < |init| ==> init[i] == hits[i];
      CacheKeepsOthers(cache, init, key);
    }
  }

  /** `search(title, author, type_, publication_year)`: the title is
      preprocessed and sent; with an empty preprocessed title the first
      titled record raises `ZeroDivisionError`; otherwise the hits are
      returned in order and, with a cache, written to it. */
  /** One more record extends the kept hits by at most that record. */
  lemma KeptStep(pre: string, records: seq<Record>, i: nat)
    requires pre != [] && i < |records|
    ensures Kept(pre, records[..i + 1])
         == if ScoreOf(pre, records[i]) > 0 then Kept(pre, records[..i]) + [Scored(ScoreOf(pre, records[i]), records[i])]
            else Kept(pre, records[..i])
  {
    assert records[..i + 1][..i] == records[..i];
  }

  /** One more hit writes that hit into the cache last. */
  lemma CacheAfterStep(cache: map<nat, Record>, hits: seq<Scored>, h: Scored)
    ensures CacheAfter(cache, hits + [h]) == CacheAfter(cache, hits)[h.record.oclcNumber := h.record]
  {
    assert (hits + [h])[..|hits|] == hits;
  }

  /** What `search` does with the records of a successful reply: with an
      empty preprocessed title the first titled record divides by zero;
      otherwise the hits are kept in order and, when a cache is configured,
      each is written to it. Returns the outcome and the new cache. */
  function Screen(pre: string, records: seq<Record>, cache: map<nat, Record>, hasCache: bool)
    : (Result<seq<Scored>, Error>, map<nat, Record>)
  {
    if pre == [] then
      (if exists i :: 0 <= i < |records| && HasTitle(records[i]) then Failure(ZeroDivisionError) else Success([]), cache)
    else
      var hits := Kept(pre, records);
      (Success(hits), if hasCache then CacheAfter(cache, hits) else cache)
  }

  /** One more record, after a prefix that raised nothing: an untitled
      record changes nothing; a titled one divides by zero under an empty
      title, and otherwise is appended and cached when it scores above 0. */
  lemma ScreenStep(pre: string, records: seq<Record>, i: nat, cache: map<nat, Record>, hasCache: bool)
    requires i < |records| && Screen(pre, records[..i], cache, hasCache).0.Success?
    ensures var (r, c) := Screen(pre, records[..i], cache, hasCache);
            var rec := records[i];
            Screen(pre, records[..i + 1], cache, hasCache)
            == if !HasTitle(rec) then (r, c)
               else if pre == [] then (Failure(ZeroDivisionError), cache)
               else if CalculateScore(pre, rec) > 0 then
                 (Success(r.value + [Scored(CalculateScore(pre, rec), rec)]), if hasCache then c[rec.oclcNumber := rec] else c)
               else (r, c)
  {
    var prefix, next := records[..i], records[..i + 1];
    assert next[..i] == prefix;
    assert next[i] == records[i];
    if pre == [] {
      if HasTitle(records[i]) {
        assert HasTitle(next[i]);
      } else {
        forall k | 0 <= k < |next| ensures !HasTitle(next[k]) {
          if k < i { assert next[k] == prefix[k]; }
        }
      }
    } else {
      KeptStep(pre, records, i);
      var hits := Kept(pre, prefix);
      if ScoreOf(pre, records[i]) > 0 {
        CacheAfterStep(cache, hits, Scored(ScoreOf(pre, records[i]), records[i]));
      }
    }
  }

  /** With an empty title, a titled record makes the whole scan divide by
      zero. */
  lemma ScreenDividesByZero(records: seq<Record>, i: nat, cache: map<nat, Record>, hasCache: bool)
    requires i < |records| && HasTitle(records[i])
    ensures Screen([], records, cache, hasCache) == (Failure(ZeroDivisionError), cache)
  {
  }

  function SearchSpec(st: ApiState, title: string, author: Option<string>, itemType: Option<string>,
                      year: Option<string>, upstream: Upstream): (Result<seq<Scored>, Error>, ApiState)
  {
    var pre := Preprocess(title);
    var a := Retry(upstream, SearchUrl(pre, author, itemType, year), st.session, MaxAttempts);
    var st' := st.(session := a.session);
    match a.outcome
    case Failure(status) => (Failure(HttpError(status)), st')
    case Success(body) =>
      var (r, cache) := Screen(pre, RecordsOf(body), st.cache, st.hasCache);
      (r, st'.(cache := cache))
  }

  /** `SearchSpec` once the search request has been answered with `a`. */
  lemma SearchSpecAfterGet(st: ApiState, title: string, author: Option<string>, itemType: Option<string>,
                           year: Option<string>, upstream: Upstream, a: Attempt)
    requires a == Retry(upstream, SearchUrl(Preprocess(title), author, itemType, year), st.session, MaxAttempts)
    ensures a.outcome.Failure? ==>
              SearchSpec(st, title, author, itemType, year, upstream)
              == (Failure(HttpError(a.outcome.error)), st.(session := a.session))
    ensures a.outcome.Success? ==>
              var (r, cache) := Screen(Preprocess(title), RecordsOf(a.outcome.value), st.cache, st.hasCache);
              SearchSpec(st, title, author, itemType, year, upstream) == (r, st.(session := a.session, cache := cache))
  {
  }

  /** What a successful search returns and leaves behind: every hit has a
      title and the score `calculate_score` gives it, in 1..100; at most
      five sessions were used up; the cache gains exactly the hits'
      numbers, and only when a cache is configured. */
  lemma SearchResults(st: ApiState, title: string, author: Option<string>, itemType: Option<string>,
                      year: Option<string>, upstream: Upstream)
    ensures var (r, st') := SearchSpec(st, title, author, itemType, year, upstream);
            && st'.hasCache == st.hasCache
            && st.session <= st'.session <= st.session + MaxAttempts
            && (r.Success? ==>
                  && (forall h :: h in r.value ==>
                        && Preprocess(title) != [] && HasTitle(h.record)
                        && h.score == CalculateScore(Preprocess(title), h.record) && 0 < h.score <= 100)
                  && st'.cache.Keys == (if st.hasCache then st.cache.Keys + set h | h in r.value :: h.record.oclcNumber
                                        else st.cache.Keys))
            && (r.Failure? ==> st'.cache == st.cache)
            && (r.Failure? ==> r.error.HttpError? || (r.error == ZeroDivisionError && Preprocess(title) == []))
  {
  }

  // ---------------------------------------------------------------------
  // get_metadata

  /** `get_metadata(oclc)`: a configured cache that holds the number
      answers without a request; otherwise the record is the single one
      the catalog returns, and any other count gives the empty dict
      (`None`). */
  function MetadataSpec(st: ApiState, oclc: nat, upstream: Upstream): (Result<Option<Record>, Error>, ApiState)
  {
    if st.hasCache && oclc in st.cache then (Success(Some(st.cache[oclc])), st)
    else
      var a := Retry(upstream, MetadataUrl(oclc), st.session, MaxAttempts);
      var st' := st.(session := a.session);
      match a.outcome
      case Failure(status) => (Failure(HttpError(status)), st')
      case Success(body) =>
        var records := RecordsOf(body);
        (Success(if |records| == 1 then Some(records[0]) else None), st')
  }

  /** A record found by `search` is served back by `get_metadata` from the
      cache, unchanged and with no request (the state stays as it is),
      whatever the catalog would now answer; this needs a configured cache
      and no later hit of the same search carrying the same number. */
  lemma SearchThenMetadata(st: ApiState, title: string, author: Option<string>, itemType: Option<string>,
                           year: Option<string>, upstream: Upstream, later: Upstream, j: nat)
    requires st.hasCache
    requires var r := SearchSpec(st, title, author, itemType, year, upstream).0;
             && r.Success? && j < |r.value|
             && forall i :: j < i < |r.value| ==> r.value[i].record.oclcNumber != r.value[j].record.oclcNumber
    ensures var (r, st') := SearchSpec(st, title, author, itemType, year, upstream);
            MetadataSpec(st', r.value[j].record.oclcNumber, later) == (Success(Some(r.value[j].record)), st')
  {
    var (r, st') := SearchSpec(st, title, author, itemType, year, upstream);
    CacheHoldsLastHit(st.cache, r.value, j);
  }

  // ---------------------------------------------------------------------
  // get_all_editions

  /** The body of page `k` (counting from 0) of the editions of `oclc`:
      offsets 1, 11, 21, ... */
  function PageBody(upstream: Upstream, session: nat, oclc: string, k: nat): Body {
    upstream(session, EditionsUrl(oclc, 1 + PageSize * k)).body
  }

  /** The records of the first `k` pages, concatenated in page order. */
  function Collected(upstream: Upstream, session: nat, oclc: string, k: nat): seq<Record> {
    if k == 0 then [] else Collected(upstream, session, oclc, k - 1) + RecordsOf(PageBody(upstream, session, oclc, k - 1))
  }

  /** The paginator's stop test after `k >= 1` pages: the collected count
      equals the last page's `numberOfRecords` (0 when absent) or has
      reached `maxResults`. */
  predicate StopsAfter(upstream: Upstream, session: nat, oclc: string, maxResults: int, k: nat) {
    && k >= 1
    && var n := |Collected(upstream, session, oclc, k)|;
       n == PageBody(upstream, session, oclc, k - 1).numberOfRecords.GetOr(0) || n >= maxResults
  }

  /** `k` is the first page count after which the paginator stops. */
  predicate IsFirstStop(upstream: Upstream, session: nat, oclc: string, maxResults: int, k: nat) {
    StopsAfter(upstream, session, oclc, maxResults, k)
    && forall j :: 1 <= j < k ==> !StopsAfter(upstream, session, oclc, maxResults, j)
  }

  /** The paginator stops at all: the source has no page limit and loops
      forever on a catalog that never meets the stop test. */
  ghost predicate EditionsTerminate(upstream: Upstream, session: nat, oclc: string, maxResults: int) {
    exists k: nat :: StopsAfter(upstream, session, oclc, maxResults, k)
  }

  /** The stopping page count is determined by the catalog. */
  lemma FirstStopUnique(upstream: Upstream, session: nat, oclc: string, maxResults: int, k1: nat, k2: nat)
    requires IsFirstStop(upstream, session, oclc, maxResults, k1)
    requires IsFirstStop(upstream, session, oclc, maxResults, k2)
    ensures k1 == k2
  {
  }

  lemma {:induction false} CollectedAtLeastPages(upstream: Upstream, session: nat, oclc: string, k: nat)
    requires forall p :: 0 <= p < k ==> |RecordsOf(PageBody(upstream, session, oclc, p))| >= 1
    ensures |Collected(upstream, session, oclc, k)| >= k
  {
    if k > 0 {
      CollectedAtLeastPages(upstream, session, oclc, k - 1);
    }
  }

  /** When every page brings at least one record the paginator stops
      within `max(maxResults, 1)` pages. */
  lemma NonEmptyPagesTerminate(upstream: Upstream, session: nat, oclc: string, maxResults: int)
    requires forall p :: |RecordsOf(PageBody(upstream, session, oclc, p))| >= 1
    ensures StopsAfter(upstream, session, oclc, maxResults, if maxResults >= 1 then maxResults as nat else 1)
    ensures EditionsTerminate(upstream, session, oclc, maxResults)
  {
    var k: nat := if maxResults >= 1 then maxResults as nat else 1;
    CollectedAtLeastPages(upstream, session, oclc, k);
    assert StopsAfter(upstream, session, oclc, maxResults, k);
  }

  /** The paginator does not truncate: with pages of at most `PageSize`
      records it returns fewer than `maxResults + PageSize` records, and
      may return more than `maxResults`. */
  lemma EditionsLengthBound(upstream: Upstream, session: nat, oclc: string, maxResults: int, k: nat)
    requires maxResults >= 1
    requires forall p :: |RecordsOf(PageBody(upstream, session, oclc, p))| <= PageSize
    requires IsFirstStop(upstream, session, oclc, maxResults, k)
    ensures |Collected(upstream, session, oclc, k)| < maxResults + PageSize
  {
    if k > 1 {
      assert !StopsAfter(upstream, session, oclc, maxResults, k - 1);
    }
  }

  /** An instance of the overshoot: a catalog declaring 1000 editions in
      full pages of ten, with `maxResults` 15, gets 20 records back after two
      pages. */
  lemma EditionsOvershoot(rec: Record)
    ensures var upstream := (s: nat, url: string) => Reply(200, Body(Some(seq(10, _ => rec)), Some(1000)));
            && IsFirstStop(upstream, 0, "1", 15, 2)
            && |Collected(upstream, 0, "1", 2)| == 20
  {
    var upstream := (s: nat, url: string) => Reply(200, Body(Some(seq(10, _ => rec)), Some(1000)));
    assert |Collected(upstream, 0, "1", 1)| == 10;
    assert |Collected(upstream, 0, "1", 2)| == 20;
  }

  // ---------------------------------------------------------------------
  // The client object

  class Api {
    /** Generation of the authenticated session; `create_session` starts a
        new one. */
    var session: nat
    /** The Redis cache: record by OCLC number. */
    var cache: map<nat, Record>
    /** Whether a Redis endpoint was configured. */
    const hasCache: bool

    function State(): ApiState
      reads this
    {
      ApiState(session, cache, hasCache)
    }

    /** A client on a fresh session. A configured Redis server is connected
        to as it is, with whatever records `stored` it already holds. */
    constructor (hasCache: bool, stored: map<nat, Record>)
      ensures State() == ApiState(0, if hasCache then stored else map[], hasCache)
    {
      this.session := 0;
      this.cache := if hasCache then stored else map[];
      this.hasCache := hasCache;
    }

    /** `get(url)`. */
    method Get(url: string, upstream: Upstream) returns (r: Result<Body, nat>)
      modifies this`session
      ensures Attempt(r, session) == Retry(upstream, url, old(session), MaxAttempts)
    {
      var retries := MaxAttempts;
      var last := 0;
      while retries > 0
        invariant 0 <= retries <= MaxAttempts
        invariant session == old(session) + (MaxAttempts - retries)
        invariant retries > 0 ==> Retry(upstream, url, old(session), MaxAttempts) == Retry(upstream, url, session, retries)
        invariant retries == 0 ==> Retry(upstream, url, old(session), MaxAttempts) == Attempt(Failure(last), session)
      {
        var reply := upstream(session, url);
        if !IsHttpError(reply.status) {
          assert Retry(upstream, url, session, retries) == Attempt(Success(reply.body), session);
          return Success(reply.body);
        }
        assert Retry(upstream, url, session, retries)
            == if retries == 1 then Attempt(Failure(reply.status), session + 1)
               else Retry(upstream, url, session + 1, retries - 1);
        last := reply.status;
        session := session + 1;
        retries := retries - 1;
      }
      r := Failure(last);
    }

    /** `search(title, author, type_, publication_year)`. */
    method Search(title: string, author: Option<string>, itemType: Option<string>, year: Option<string>,
                  upstream: Upstream) returns (r: Result<seq<Scored>, Error>)
      modifies this
      ensures (r, State()) == SearchSpec(old(State()), title, author, itemType, year, upstream)
    {
      var pre := Preprocess(title);
      ghost var before := State();
      var response := Get(SearchUrl(pre, author, itemType, year), upstream);
      SearchSpecAfterGet(before, title, author, itemType, year, upstream, Attempt(response, session));
      if response.Failure? {
        return Failure(HttpError(response.error));
      }
      r := ScreenRecords(pre, RecordsOf(response.value));
    }

    /** The record loop of `search`. */
    method ScreenRecords(pre: string, records: seq<Record>) returns (r: Result<seq<Scored>, Error>)
      modifies this`cache
      ensures (r, cache) == Screen(pre, records, old(cache), hasCache)
    {
      var results: seq<Scored> := [];
      var i := 0;
      while i < |records|
        invariant 0 <= i <= |records|
        invariant (Success(results), cache) == Screen(pre, records[..i], old(cache), hasCache)
      {
        var record := records[i];
        ScreenStep(pre, records, i, old(cache), hasCache);
        if HasTitle(record) {
          if pre == [] {
            ScreenDividesByZero(records, i, old(cache), hasCache);
            return Failure(ZeroDivisionError);
          }
          var score := CalculateScore(pre, record);
          if score > 0 {
            results := results + [Scored(score, record)];
            if hasCache {
              cache := cache[record.oclcNumber := record];
            }
          }
        }
        i := i + 1;
      }
      assert records[..|records|] == records;
      r := Success(results);
    }

    /** `get_metadata(oclc)`. */
    method GetMetadata(oclc: nat, upstream: Upstream) returns (r: Result<Option<Record>, Error>)
      modifies this`session
      ensures (r, State()) == MetadataSpec(old(State()), oclc, upstream)
    {
      if hasCache && oclc in cache {
        return Success(Some(cache[oclc]));
      }
      var response := Get(MetadataUrl(oclc), upstream);
      if response.Failure? {
        return Failure(HttpError(response.error));
      }
      var records := RecordsOf(response.value);
      if |records| == 1 {
        r := Success(Some(records[0]));
      } else {
        r := Success(None);
      }
    }

    /** `get_all_editions(oclc, max_results)`: pages at offsets 1, 11, 21,
        ... on the current session (no retry), concatenated until the stop
        test holds; the result is the records of the first stopping page
        count, not truncated. */
    method GetAllEditions(oclc: string, maxResults: int, upstream: Upstream) returns (result: seq<Record>)
      requires EditionsTerminate(upstream, session, oclc, maxResults)
      ensures exists k :: IsFirstStop(upstream, session, oclc, maxResults, k)
                          && result == Collected(upstream, session, oclc, k)
    {
      ghost var bound: nat :| StopsAfter(upstream, session, oclc, maxResults, bound);
      ghost var k: nat := 0;
      result := [];
      var offset := 1;
      while true
        invariant offset == 1 + PageSize * k
        invariant result == Collected(upstream, session, oclc, k)
        invariant k < bound
        invariant forall j :: 1 <= j <= k ==> !StopsAfter(upstream, session, oclc, maxResults, j)
        decreases bound - k
      {
        var data := upstream(session, EditionsUrl(oclc, offset)).body;
        assert data == PageBody(upstream, session, oclc, k);
        result := result + RecordsOf(data);
        k := k + 1;
        assert result == Collected(upstream, session, oclc, k);
        var stop := |result| == data.numberOfRecords.GetOr(0) || |result| >= maxResults;
        assert stop <==> StopsAfter(upstream, session, oclc, maxResults, k);
        if stop {
          assert IsFirstStop(upstream, session, oclc, maxResults, k);
          return;
        }
        offset := offset + PageSize;
      }
    }
  }
}
