/** The parsed JSON shapes the service exchanges with the WorldCat catalog,
    and the exceptions that abort a request. */
module Catalog {
  import opened Wrappers

  /** A brief record of the catalog. Only the fields the service reads are
      kept: the OCLC number, the title (missing or null is `None`) and the
      general format code (missing is `None`). */
  datatype Record = Record(oclcNumber: nat, title: Option<string>, generalFormat: Option<string>)

  /** The JSON body of a catalog reply: `briefRecords` and, on the editions
      endpoint, the declared total `numberOfRecords`; either may be absent. */
  datatype Body = Body(briefRecords: Option<seq<Record>>, numberOfRecords: Option<int>)

  /** One HTTP reply: status code and parsed body. */
  datatype Reply = Reply(status: nat, body: Body)

  /** The catalog as seen by the service: the reply to a GET of `url` sent on
      the authenticated session with generation `session`. */
  type Upstream = (nat, string) -> Reply

  /** What `raise_for_status` rejects: a 4xx or 5xx status. */
  predicate IsHttpError(status: nat) {
    400 <= status < 600
  }

  /** The exceptions that abort a request. */
  datatype Error =
    | HttpError(status: nat)    // requests.exceptions.HTTPError, after the retries are spent
    | ZeroDivisionError         // scoring against an empty preprocessed title
    | KeyError(key: string)     // a required JSON key is missing
    | TypeError                 // iterating over a missing (None) list

  /** A search hit: a record with the score it reached. */
  datatype Scored = Scored(score: nat, record: Record)

  /** Records whose `title` is truthy: present, not null and not empty. */
  predicate HasTitle(r: Record) {
    r.title.Some? && r.title.value != []
  }

  /** `briefRecords` with Python's default of an empty list. */
  function RecordsOf(b: Body): seq<Record> {
    b.briefRecords.GetOr([])
  }

  /** A string-valued argument is truthy when present and non-empty. */
  predicate Truthy(s: Option<string>) {
    s.Some? && s.value != []
  }
}
