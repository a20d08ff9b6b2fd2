/** The reconciliation endpoints of `main.py`: `process_queries`, which
    answers a batch of reconciliation queries with scored candidates from
    the catalog search, and `process_extend`, which adds the OCLC numbers
    of all editions to a batch of reconciled ids. */
module Service {
  import opened Wrappers
  import opened Catalog
  import opened Normalize
  import opened Urls
  import opened WorldcatApi

  // ---------------------------------------------------------------------
  // Queries
  // ---------------------------------------------------------------------

  /** One entry of a query's `properties` list; `None` is a missing key. */
  datatype Property = Property(pid: Option<string>, v: Option<string>)

  /** One reconciliation query; `None` is a missing key, and a missing
      `properties` list reads as the empty list. */
  datatype Query = Query(query: Option<string>, itemType: Option<string>, properties: Option<seq<Property>>)

  /** The search hints taken from a query's properties. */
  datatype Hints = Hints(author: Option<string>, year: Option<string>)

  const AuthorPid := "author"
  const YearPid := "publication_year"

  /** The effect of one property on the hints gathered so far: a missing
      `pid` is a `KeyError`, and so is a missing `v` on an `author` or
      `publication_year` property, which otherwise replaces that hint. */
  function HintStep(h: Hints, p: Property): Result<Hints, Error> {
    if p.pid.None? then Failure(KeyError("pid"))
    else if p.pid.value == AuthorPid then
      if p.v.None? then Failure(KeyError("v")) else Success(h.(author := p.v))
    else if p.pid.value == YearPid then
      if p.v.None? then Failure(KeyError("v")) else Success(h.(year := p.v))
    else Success(h)
  }

  /** The hints after scanning `props` in order from no hints, or the first
      error met. */
  function HintsOf(props: seq<Property>): (r: Result<Hints, Error>)
    ensures r.Failure? ==> r.error == KeyError("pid") || r.error == KeyError("v")
    decreases |props|
  {
    if props == [] then Success(Hints(None, None))
    else
      match HintsOf(props[..|props| - 1])
      case Failure(e) => Failure(e)
      case Success(h) => HintStep(h, props[|props| - 1])
  }

  /** The `v` of the last property whose `pid` is `pid`, if any. */
  function LastValue(props: seq<Property>, pid: string): Option<string>
    decreases |props|
  {
    if props == [] then None
    else if props[|props| - 1].pid == Some(pid) then props[|props| - 1].v
    else LastValue(props[..|props| - 1], pid)
  }

  /** A property on which the scan raises. */
  predicate Malformed(p: Property) {
    p.pid.None? || ((p.pid.value == AuthorPid || p.pid.value == YearPid) && p.v.None?)
  }

  /** The scan fails exactly when some property is malformed, and otherwise
      the hints are the last `author` and `publication_year` values. */
  lemma {:induction false} HintsAreLastValues(props: seq<Property>)
    ensures HintsOf(props).Failure? <==> exists i :: 0 <= i < |props| && Malformed(props[i])
    ensures HintsOf(props).Success? ==>
              HintsOf(props).value == Hints(LastValue(props, AuthorPid), LastValue(props, YearPid))
    decreases |props|
  {
    if props != [] {
      var init := props[..|props| - 1];
      var p := props[|props| - 1];
      HintsAreLastValues(init);
      if HintsOf(init).Failure? {
        var i :| 0 <= i < |init| && Malformed(init[i]);
        assert props[i] == init[i];
      } else if Malformed(p) {
        assert HintsOf(props).Failure?;
      } else {
        assert forall i :: 0 <= i < |init| ==> props[i] == init[i];
        assert !exists i :: 0 <= i < |props| && Malformed(props[i]);
      }
    }
  }

  /** The property loop of `process_queries`. */
  method ExtractHints(props: seq<Property>) returns (r: Result<Hints, Error>)
    ensures r == HintsOf(props)
  {
    var author: Option<string> := None;
    var year: Option<string> := None;
    var i := 0;
    while i < |props|
      invariant 0 <= i <= |props|
      invariant HintsOf(props[..i]) == Success(Hints(author, year))
    {
      var p := props[i];
      assert props[..i + 1][..i] == props[..i];
      if p.pid.None? {
        assert HintsOf(props[..i + 1]).Failure?;
        HintsFailureSticks(props, i + 1);
        return Failure(KeyError("pid"));
      }
      if p.pid.value == AuthorPid {
        if p.v.None? {
          HintsFailureSticks(props, i + 1);
          return Failure(KeyError("v"));
        }
        author := p.v;
      } else if p.pid.value == YearPid {
        if p.v.None? {
          HintsFailureSticks(props, i + 1);
          return Failure(KeyError("v"));
        }
        year := p.v;
      }
      i := i + 1;
    }
    assert props[..|props|] == props;
    r := Success(Hints(author, year));
  }

  /** Once the scan of a prefix fails, the scan of the whole list fails with
      the same error. */
  lemma {:induction false} HintsFailureSticks(props: seq<Property>, n: nat)
    requires n <= |props| && HintsOf(props[..n]).Failure?
    ensures HintsOf(props) == HintsOf(props[..n])
    decreases |props| - n
  {
    if n == |props| {
      assert props[..n] == props;
    } else {
      assert props[..n + 1][..n] == props[..n];
      HintsFailureSticks(props, n + 1);
    }
  }

  /** One entry of a candidate's type list. */
  datatype TypeRef = TypeRef(id: string, name: Option<string>)

  /** One reconciliation candidate. */
  datatype Candidate = Candidate(id: nat, name: string, types: seq<TypeRef>, score: nat, isMatch: bool)

  /** The candidate built from one search hit: its format code, lowered,
      is the type id and `types.get` of it the type name; a record without
      `generalFormat` is a `KeyError`. */
  function CandidateOf(s: Scored): (r: Result<Candidate, Error>)
    ensures r.Failure? <==> s.record.generalFormat.None?
    ensures r.Failure? ==> r.error == KeyError("generalFormat")
    ensures r.Success? ==>
              && r.value.id == s.record.oclcNumber
              && (s.record.title.Some? ==> r.value.name == s.record.title.value)
              && r.value.score == s.score
              && r.value.isMatch
              && |r.value.types| == 1
              && |r.value.types[0].id| == |s.record.generalFormat.value|
              && (forall i :: 0 <= i < |s.record.generalFormat.value| ==>
                    var c := s.record.generalFormat.value[i];
                    if IsUpper(c) then r.value.types[0].id[i] as int == c as int + 32
                    else r.value.types[0].id[i] == c)
              && r.value.types[0].name == TypeName(r.value.types[0].id)
              && (s.record.generalFormat.value in Types ==>
                    r.value.types[0].name == Some(Types[s.record.generalFormat.value]))
  {
    match s.record.generalFormat
    case None => Failure(KeyError("generalFormat"))
    case Some(format) =>
      var code := Lower(format);
      TypeNameOfLowered(format);
      Success(Candidate(s.record.oclcNumber, s.record.title.GetOr(""), [TypeRef(code, TypeName(code))], s.score, true))
  }

  /** The candidates of the hits, in order, or the error of the first hit
      that has none. */
  function Candidates(hits: seq<Scored>): (r: Result<seq<Candidate>, Error>)
    ensures r.Success? <==> forall i :: 0 <= i < |hits| ==> hits[i].record.generalFormat.Some?
    ensures r.Failure? ==> r.error == KeyError("generalFormat")
    ensures r.Success? ==> |r.value| == |hits|
    ensures r.Success? ==> forall i :: 0 <= i < |hits| ==>
              && r.value[i].id == hits[i].record.oclcNumber
              && (hits[i].record.title.Some? ==> r.value[i].name == hits[i].record.title.value)
              && r.value[i].score == hits[i].score
              && r.value[i].isMatch
              && r.value[i].types == [TypeRef(Lower(hits[i].record.generalFormat.value),
                                              TypeName(Lower(hits[i].record.generalFormat.value)))]
    decreases |hits|
  {
    if hits == [] then Success([])
    else
      var init := hits[..|hits| - 1];
      match Candidates(init)
      case Failure(e) => Failure(e)
      case Success(cs) =>
        match CandidateOf(hits[|hits| - 1])
        case Failure(e) => Failure(e)
        case Success(c) => Success(cs + [c])
  }

  /** The answer to one query: the hints are scanned first, then a missing
      `query` is a `KeyError`, then the catalog is searched with the query
      text, the `type` and the hints, and the hits become candidates. */
  function AnswerQuery(st: ApiState, q: Query, upstream: Upstream): (Result<seq<Candidate>, Error>, ApiState) {
    match HintsOf(q.properties.GetOr([]))
    case Failure(e) => (Failure(e), st)
    case Success(h) =>
      if q.query.None? then (Failure(KeyError("query")), st)
      else
        var (found, st') := SearchSpec(st, q.query.value, h.author, q.itemType, h.year, upstream);
        match found
        case Failure(e) => (Failure(e), st')
        case Success(hits) => (Candidates(hits), st')
  }

  /** `process_queries`: the queries of the batch answered in order, each
      answer stored under its key, or the first error, with the API state
      left by the queries answered until then. */
  function Reconcile(st: ApiState, batch: seq<(string, Query)>, upstream: Upstream)
    : (Result<map<string, seq<Candidate>>, Error>, ApiState)
    decreases |batch|
  {
    if batch == [] then (Success(map[]), st)
    else
      var (results, st1) := Reconcile(st, batch[..|batch| - 1], upstream);
      match results
      case Failure(e) => (Failure(e), st1)
      case Success(m) =>
        var (key, q) := batch[|batch| - 1];
        var (answer, st2) := AnswerQuery(st1, q, upstream);
        match answer
        case Failure(e) => (Failure(e), st2)
        case Success(cs) => (Success(m[key := cs]), st2)
  }

  /** A candidate as `process_queries` emits it. */
  predicate WellFormed(c: Candidate) {
    && c.isMatch
    && 0 < c.score <= 100
    && |c.types| == 1
    && c.types[0].name == TypeName(c.types[0].id)
  }

  /** Every answered query yields well-formed candidates and an answer can
      only fail in the documented ways. */
  lemma AnswerWellFormed(st: ApiState, q: Query, upstream: Upstream)
    ensures var (r, st') := AnswerQuery(st, q, upstream);
            && st'.hasCache == st.hasCache
            && (r.Success? ==> forall c :: c in r.value ==> WellFormed(c))
            && (r.Failure? ==> r.error.KeyError? || r.error.HttpError? || r.error == ZeroDivisionError)
            && (q.query.None? ==> r.Failure? && r.error.KeyError? && st' == st)
  {
    var props := q.properties.GetOr([]);
    HintsAreLastValues(props);
    match HintsOf(props)
    case Failure(e) =>
    case Success(h) =>
      if q.query.Some? {
        SearchResults(st, q.query.value, h.author, q.itemType, h.year, upstream);
        var (found, st') := SearchSpec(st, q.query.value, h.author, q.itemType, h.year, upstream);
        if found.Success? {
          var cs := Candidates(found.value);
          if cs.Success? {
            forall c | c in cs.value
              ensures WellFormed(c)
            {
              var i :| 0 <= i < |cs.value| && cs.value[i] == c;
              assert found.value[i] in found.value;
            }
          }
        }
      }
  }

  /** A successful batch answers every key of the batch and no other, with
      well-formed candidates only. */
  lemma {:induction false} ReconcileAnswersEveryKey(st: ApiState, batch: seq<(string, Query)>, upstream: Upstream)
    ensures var (r, st') := Reconcile(st, batch, upstream);
            && st'.hasCache == st.hasCache
            && (r.Success? ==> r.value.Keys == Keys(batch))
            && (r.Success? ==> forall k :: k in r.value ==> forall c :: c in r.value[k] ==> WellFormed(c))
    decreases |batch|
  {
    if batch != [] {
      var init := batch[..|batch| - 1];
      ReconcileAnswersEveryKey(st, init, upstream);
      var (results, st1) := Reconcile(st, init, upstream);
      if results.Success? {
        var (key, q) := batch[|batch| - 1];
        AnswerWellFormed(st1, q, upstream);
        var (answer, st2) := AnswerQuery(st1, q, upstream);
        if answer.Success? {
          KeysAppend(batch);
        }
      }
    }
  }

  /** The keys of a batch. */
  function Keys(batch: seq<(string, Query)>): set<string> {
    set i | 0 <= i < |batch| :: batch[i].0
  }

  /** The keys of a batch are those of all but its last query and the last
      query's key. */
  lemma KeysAppend(batch: seq<(string, Query)>)
    requires batch != []
    ensures Keys(batch) == Keys(batch[..|batch| - 1]) + {batch[|batch| - 1].0}
  {
    var init := batch[..|batch| - 1];
    var keys := Keys(batch);
    var initKeys := Keys(init);
    forall k | k in keys ensures k in initKeys + {batch[|batch| - 1].0} {
      var i :| 0 <= i < |batch| && batch[i].0 == k;
      if i < |init| { assert init[i] == batch[i]; }
    }
    forall k | k in initKeys ensures k in keys {
      var i :| 0 <= i < |init| && init[i].0 == k;
      assert batch[i] == init[i];
    }
  }

  /** A failing query fails the whole batch: the queries after it do not
      change the outcome or the API state. */
  lemma {:induction false} ReconcileFailureSticks(st: ApiState, batch: seq<(string, Query)>, n: nat, upstream: Upstream)
    requires n <= |batch| && Reconcile(st, batch[..n], upstream).0.Failure?
    ensures Reconcile(st, batch, upstream) == Reconcile(st, batch[..n], upstream)
    decreases |batch| - n
  {
    if n == |batch| {
      assert batch[..n] == batch;
    } else {
      assert batch[..n + 1][..n] == batch[..n];
      ReconcileFailureSticks(st, batch, n + 1, upstream);
    }
  }

  /** `process_queries(queries)` on the decoded batch. */
  method ProcessQueries(api: Api, batch: seq<(string, Query)>, upstream: Upstream)
      returns (r: Result<map<string, seq<Candidate>>, Error>)
    modifies api
    ensures (r, api.State()) == Reconcile(old(api.State()), batch, upstream)
  {
    var results: map<string, seq<Candidate>> := map[];
    var i := 0;
    while i < |batch|
      invariant 0 <= i <= |batch|
      invariant (Success(results), api.State()) == Reconcile(old(api.State()), batch[..i], upstream)
    {
      var (key, q) := batch[i];
      ghost var before := api.State();
      var answer := Answer(api, q, upstream);
      ReconcileStep(old(api.State()), batch, i, results, before, answer, api.State(), upstream);
      if answer.Failure? {
        r := Failure(answer.error);
        ReconcileFailureSticks(old(api.State()), batch, i + 1, upstream);
        return;
      }
      results := results[key := answer.value];
      i := i + 1;
    }
    assert batch[..|batch|] == batch;
    r := Success(results);
  }

  /** One more query of the batch, answered after a prefix that succeeded. */
  lemma ReconcileStep(st: ApiState, batch: seq<(string, Query)>, i: nat, m: map<string, seq<Candidate>>,
                      st1: ApiState, answer: Result<seq<Candidate>, Error>, st2: ApiState, upstream: Upstream)
    requires i < |batch|
    requires Reconcile(st, batch[..i], upstream) == (Success(m), st1)
    requires (answer, st2) == AnswerQuery(st1, batch[i].1, upstream)
    ensures Reconcile(st, batch[..i + 1], upstream)
            == (if answer.Failure? then (Failure(answer.error), st2) else (Success(m[batch[i].0 := answer.value]), st2))
  {
    assert batch[..i + 1][..i] == batch[..i];
    assert batch[..i + 1][i] == batch[i];
  }

  /** The body of the batch loop of `process_queries` for one query. */
  method Answer(api: Api, q: Query, upstream: Upstream) returns (r: Result<seq<Candidate>, Error>)
    modifies api
    ensures (r, api.State()) == AnswerQuery(old(api.State()), q, upstream)
  {
    var hints := ExtractHints(q.properties.GetOr([]));
    if hints.Failure? {
      return Failure(hints.error);
    }
    if q.query.None? {
      return Failure(KeyError("query"));
    }
    var found := api.Search(q.query.value, hints.value.author, q.itemType, hints.value.year, upstream);
    if found.Failure? {
      return Failure(found.error);
    }
    r := Candidates(found.value);
  }

  // ---------------------------------------------------------------------
  // Extend
  // ---------------------------------------------------------------------

  /** One requested extension property; `None` is a missing `id`. */
  datatype PropertyRef = PropertyRef(id: Option<string>)

  /** A decoded extend request; `None` is a missing key. */
  datatype ExtendRequest = ExtendRequest(properties: Option<seq<PropertyRef>>, ids: Option<seq<string>>)

  /** One entry of the response's `meta` list. */
  datatype MetaEntry = MetaEntry(id: string, name: string)

  /** The extend response: `meta`, and `rows` from id to property to the
      `str` values. */
  datatype ExtendResult = ExtendResult(meta: seq<MetaEntry>, rows: map<string, map<string, seq<string>>>)

  /** The only extension property the service knows. */
  const EditionsPid := "oclc_of_all_editions"
  /** `get_all_editions`' default `max_results`. */
  const EditionsMax := 100

  /** The error the property loop meets first, if any: a property without
      `id` is a `KeyError`; the editions property of a request without
      `ids` is a `TypeError` (iterating over `None`). */
  function ExtendError(props: seq<PropertyRef>, hasIds: bool): Option<Error>
    decreases |props|
  {
    if props == [] then None
    else
      match ExtendError(props[..|props| - 1], hasIds)
      case Some(e) => Some(e)
      case None =>
        var p := props[|props| - 1];
        if p.id.None? then Some(KeyError("id"))
        else if p.id.value == EditionsPid && !hasIds then Some(TypeError)
        else None
  }

  /** The number of editions properties requested. */
  function EditionsRequested(props: seq<PropertyRef>): nat
    decreases |props|
  {
    if props == [] then 0
    else EditionsRequested(props[..|props| - 1]) + if props[|props| - 1].id == Some(EditionsPid) then 1 else 0
  }

  /** A prefix of the properties requests no more editions than the whole
      list. */
  lemma {:induction false} EditionsRequestedMonotone(props: seq<PropertyRef>, n: nat)
    requires n <= |props|
    ensures EditionsRequested(props[..n]) <= EditionsRequested(props)
    decreases |props| - n
  {
    if n < |props| {
      assert props[..n + 1][..n] == props[..n];
      EditionsRequestedMonotone(props, n + 1);
    } else {
      assert props[..n] == props;
    }
  }

  /** The `str` of each record's OCLC number, in order. */
  function OclcStrings(records: seq<Record>): (r: seq<string>)
    ensures |r| == |records|
    ensures forall i :: 0 <= i < |records| ==> r[i] == NatToString(records[i].oclcNumber)
    ensures forall i :: 0 <= i < |records| ==>
              (forall j :: 0 <= j < |r[i]| ==> IsDigit(r[i][j])) && ParseNat(r[i]) == records[i].oclcNumber
    decreases |records|
  {
    if records == [] then []
    else
      var init := OclcStrings(records[..|records| - 1]);
      ParseNatToString(records[|records| - 1].oclcNumber);
      init + [NatToString(records[|records| - 1].oclcNumber)]
  }

  /** `row` is the editions row of `id`: the OCLC numbers of all editions
      the paginator collects on `session`, under the key `oclc`. */
  ghost predicate EditionsRow(upstream: Upstream, session: nat, id: string, row: map<string, seq<string>>) {
    exists k: nat :: IsFirstStop(upstream, session, id, EditionsMax, k)
                  && row == map["oclc" := OclcStrings(Collected(upstream, session, id, k))]
  }

  /** The set of ids of a list. */
  function IdSet(ids: seq<string>): set<string> {
    set i | 0 <= i < |ids| :: ids[i]
  }

  /** `process_extend(extend)` on the decoded request: when an editions
      property is requested, the paginator is required to stop for every
      id. */
  method ProcessExtend(api: Api, req: ExtendRequest, upstream: Upstream) returns (r: Result<ExtendResult, Error>)
    requires req.properties.Some? && req.ids.Some? && EditionsRequested(req.properties.value) > 0 ==>
               forall i :: 0 <= i < |req.ids.value| ==>
                 EditionsTerminate(upstream, api.session, req.ids.value[i], EditionsMax)
    ensures req.properties.None? ==> r == Failure(KeyError("properties"))
    ensures req.properties.Some? ==>
              match ExtendError(req.properties.value, req.ids.Some?)
              case Some(e) => r == Failure(e)
              case None =>
                && r.Success?
                && r.value.meta == seq(EditionsRequested(req.properties.value), _ => MetaEntry(EditionsPid, "OCLC"))
                && r.value.rows.Keys == (if EditionsRequested(req.properties.value) == 0 then {} else IdSet(req.ids.GetOr([])))
                && AllEditionsRows(upstream, api.session, r.value.rows)
  {
    if req.properties.None? {
      return Failure(KeyError("properties"));
    }
    var props := req.properties.value;
    var meta: seq<MetaEntry> := [];
    var rows: map<string, map<string, seq<string>>> := map[];
    var i := 0;
    while i < |props|
      invariant 0 <= i <= |props|
      invariant ExtendError(props[..i], req.ids.Some?).None?
      invariant meta == seq(EditionsRequested(props[..i]), _ => MetaEntry(EditionsPid, "OCLC"))
      invariant rows.Keys == if EditionsRequested(props[..i]) == 0 then {} else IdSet(req.ids.GetOr([]))
      invariant AllEditionsRows(upstream, api.session, rows)
    {
      var p := props[i];
      assert props[..i + 1][..i] == props[..i];
      if p.id.None? {
        ExtendErrorSticks(props, req.ids.Some?, i + 1);
        return Failure(KeyError("id"));
      }
      if p.id.value == EditionsPid {
        meta := meta + [MetaEntry(EditionsPid, "OCLC")];
        if req.ids.None? {
          ExtendErrorSticks(props, req.ids.Some?, i + 1);
          return Failure(TypeError);
        }
        assert EditionsRequested(props[..i + 1]) > 0;
        EditionsRequestedMonotone(props, i + 1);
        rows := EditionsRows(api, req.ids.value, rows, upstream);
      }
      i := i + 1;
    }
    assert props[..|props|] == props;
    r := Success(ExtendResult(meta, rows));
  }

  /** Every row of `rows` is the editions row of its id. */
  ghost predicate AllEditionsRows(upstream: Upstream, session: nat, rows: map<string, map<string, seq<string>>>) {
    forall id :: id in rows ==> EditionsRow(upstream, session, id, rows[id])
  }

  /** The id loop of `process_extend`: the editions row of every id,
      written over `rows`. */
  method EditionsRows(api: Api, ids: seq<string>, rows: map<string, map<string, seq<string>>>, upstream: Upstream)
      returns (rows': map<string, map<string, seq<string>>>)
    requires forall i :: 0 <= i < |ids| ==> EditionsTerminate(upstream, api.session, ids[i], EditionsMax)
    requires AllEditionsRows(upstream, api.session, rows)
    ensures rows'.Keys == rows.Keys + IdSet(ids)
    ensures AllEditionsRows(upstream, api.session, rows')
  {
    rows' := rows;
    var j := 0;
    while j < |ids|
      invariant 0 <= j <= |ids|
      invariant rows'.Keys == rows.Keys + IdSet(ids[..j])
      invariant AllEditionsRows(upstream, api.session, rows')
    {
      var editions := api.GetAllEditions(ids[j], EditionsMax, upstream);
      var row := map["oclc" := OclcStrings(editions)];
      RowsUpdate(upstream, api.session, rows', ids[j], editions);
      IdSetStep(ids, j);
      rows' := rows'[ids[j] := row];
      j := j + 1;
    }
    assert ids[..|ids|] == ids;
  }

  /** Writing the row of a paginator result keeps every row an editions
      row. */
  lemma RowsUpdate(upstream: Upstream, session: nat, rows: map<string, map<string, seq<string>>>,
                   id: string, editions: seq<Record>)
    requires AllEditionsRows(upstream, session, rows)
    requires exists k :: IsFirstStop(upstream, session, id, EditionsMax, k)
                         && editions == Collected(upstream, session, id, k)
    ensures AllEditionsRows(upstream, session, rows[id := map["oclc" := OclcStrings(editions)]])
  {
    var k :| IsFirstStop(upstream, session, id, EditionsMax, k) && editions == Collected(upstream, session, id, k);
    assert EditionsRow(upstream, session, id, map["oclc" := OclcStrings(editions)]);
  }

  /** The ids of one more element of the list. */
  lemma IdSetStep(ids: seq<string>, j: nat)
    requires j < |ids|
    ensures IdSet(ids[..j + 1]) == IdSet(ids[..j]) + {ids[j]}
  {
    assert ids[..j + 1] == ids[..j] + [ids[j]];
  }

  /** Once a prefix of the properties meets an error, the whole list meets
      the same error. */
  lemma {:induction false} ExtendErrorSticks(props: seq<PropertyRef>, hasIds: bool, n: nat)
    requires n <= |props| && ExtendError(props[..n], hasIds).Some?
    ensures ExtendError(props, hasIds) == ExtendError(props[..n], hasIds)
    decreases |props| - n
  {
    if n == |props| {
      assert props[..n] == props;
    } else {
      assert props[..n + 1][..n] == props[..n];
      ExtendErrorSticks(props, hasIds, n + 1);
    }
  }
}
