/**
 * The single-URL submission route (`POST /submit_url`): the body's "url"
 * must be truthy, then the recency check must answer false. The handler
 * answers with an acknowledgement and starts no crawl.
 */
module UrlSubmission {
  import opened Maybe
  import opened JsonValue
  import opened Http
  import opened Dedup

  const UrlRequired := "URL is required."
  const DuplicateSubmission := "URL was recently crawled. Duplicate submission."
  const InternalError := "Internal server error."
  const SubmittedMessage := "URL submitted for crawling."

  /** What the call `is_recently_crawled(url, session)` does: answers, or raises. */
  datatype DedupCall = Answered(recent: bool) | CallRaised

  /** The JSON body of a successful submission: `{"message": ...}`. */
  datatype Acknowledgement = Acknowledgement(message: string)

  /** `payload.get("url")`, with Python's `None` for a missing key. */
  function UrlOf(payload: seq<Field>): Data {
    match Get(payload, "url")
    case Some(d) => d
    case None => Null
  }

  /**
   * `submit_url(payload)`, where `check` is what the recency check does for
   * the submitted value.
   */
  function SubmitUrl(payload: seq<Field>, check: DedupCall): (r: Outcome<Acknowledgement>)
    ensures r.Ok? ==> r.value == Acknowledgement(SubmittedMessage)
    ensures r.Fail? ==> r.error.status in {BadRequest, ServerError}
  {
    var url := UrlOf(payload);
    if !Truthy(url) then Fail(HttpError(BadRequest, UrlRequired))
    else match check
      case Answered(true) => Fail(HttpError(BadRequest, DuplicateSubmission))
      case CallRaised => Fail(HttpError(ServerError, InternalError))
      case Answered(false) => Ok(Acknowledgement(SubmittedMessage))
  }

  /**
   * A missing or falsy "url" (absent, null, "", 0, false, [] or {}) is
   * rejected with 400 before the recency check has any say.
   */
  lemma MissingUrlRejectedFirst(payload: seq<Field>, check: DedupCall)
    requires !HasKey(payload, "url") || !Truthy(Get(payload, "url").value)
    ensures SubmitUrl(payload, check) == Fail(HttpError(BadRequest, UrlRequired))
  {
  }

  /**
   * With a truthy "url", the outcome is decided by the recency check alone:
   * a recent URL is a 400 duplicate, a check that raises a 500, anything
   * else is accepted.
   */
  lemma TruthyUrlDecidedByCheck(payload: seq<Field>, check: DedupCall)
    requires HasKey(payload, "url") && Truthy(Get(payload, "url").value)
    ensures check == Answered(true) <==> SubmitUrl(payload, check) == Fail(HttpError(BadRequest, DuplicateSubmission))
    ensures check == CallRaised <==> SubmitUrl(payload, check) == Fail(HttpError(ServerError, InternalError))
    ensures check == Answered(false) <==> SubmitUrl(payload, check).Ok?
  {
  }

  /**
   * What the service's own recency check answers for the submitted value:
   * it never raises, and only a string URL with a recent ledger entry is
   * recent (a value of another type matches no entry).
   */
  function LedgerCheck(ledger: Ledger, url: Data, now: int, lookupFails: bool): (c: DedupCall)
    ensures c.Answered?
    ensures c.recent ==> url.Str? && url.s in ledger
  {
    Answered(url.Str? && IsRecentlyCrawled(ledger, url.s, now, lookupFails))
  }

  /**
   * Because the recency check fails open, the route never answers 500: a
   * truthy URL is accepted exactly when it has no entry from the last seven
   * days or the ledger query raised.
   */
  lemma NoServerErrorWithLedgerCheck(payload: seq<Field>, ledger: Ledger, now: int, lookupFails: bool)
    ensures var url := UrlOf(payload);
            var r := SubmitUrl(payload, LedgerCheck(ledger, url, now, lookupFails));
            && (r.Fail? ==> r.error.status == BadRequest)
            && (r.Ok? <==> Truthy(url) && (lookupFails || !(url.Str? && url.s in ledger && ledger[url.s] >= Cutoff(now))))
  {
  }

  /** The route's own scenarios: an empty body and a recently crawled URL. */
  lemma SubmissionExamples(url: string)
    requires url == "http://example.com"
    ensures SubmitUrl([], Answered(false)) == Fail(HttpError(400, "URL is required."))
    ensures SubmitUrl([Field("url", Str(""))], Answered(false)) == Fail(HttpError(400, "URL is required."))
    ensures SubmitUrl([Field("url", Str(url))], Answered(true))
            == Fail(HttpError(400, "URL was recently crawled. Duplicate submission."))
    ensures SubmitUrl([Field("url", Str(url))], Answered(false)) == Ok(Acknowledgement("URL submitted for crawling."))
  {
  }
}
