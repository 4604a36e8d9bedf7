/** IngestFootballDataOrgController: GET /ingest/footballdataorg/fixtures
    with a `competition` parameter. The code is validated against
    `^[A-Z0-9]{2,5}$` before the service runs; the service's id is the
    answer, and an empty result becomes a 404. Every failure is rendered by
    the problem handler. */
module IngestController {
  import opened Outcomes
  import opened Exceptions
  import opened RawIngestStore
  import opened RawIngestService
  import MatchPayload
  import FdOrgClient
  import ProblemHandler

  /** A character of the class [A-Z0-9]. */
  predicate IsCodeChar(c: char) {
    'A' <= c <= 'Z' || '0' <= c <= '9'
  }

  /** The whole string matches `^[A-Z0-9]{2,5}$`. */
  predicate ValidCompetitionCode(code: string) {
    2 <= |code| <= 5 && forall i :: 0 <= i < |code| ==> IsCodeChar(code[i])
  }

  /** The ConstraintViolationException bean validation raises for a code
      that does not match; no handler of its own catches it. */
  function ValidationFailure(): Failure {
    Unexpected(Some("fixtures.competitionCode: competition must be an uppercase code like PL, CL, etc."))
  }

  /** The reason of the 404 an empty service result becomes. */
  function NotFoundReason(code: string): string {
    "Competition " + code + " not found or already stored"
  }

  /** The endpoint's answer to the service's result: a stored id is
      returned, an empty result is a 404 naming the code, a failure passes
      through. */
  function FixturesAnswer(code: string, result: Result<Option<int>, Failure>): (r: Result<int, Failure>)
    ensures r.Ok? <==> result.Ok? && result.value.Some?
    ensures r.Ok? ==> r.value == result.value.value
    ensures result == Ok(None) ==> r == Err(ResponseStatus(404, Some(NotFoundReason(code))))
    ensures result.Err? ==> r == Err(result.error)
  {
    match result
    case Ok(Some(id)) => Ok(id)
    case Ok(None) => Err(ResponseStatus(404, Some(NotFoundReason(code))))
    case Err(f) => Err(f)
  }

  /** The HTTP status the endpoint answers with. */
  function ResponseStatusOf(r: Result<int, Failure>): StatusCode {
    if r.Ok? then 200 else ProblemHandler.Handle(r.error).status
  }

  /** The controller bean over the ingest service. */
  class IngestFootballDataOrgController {
    const ingestService: FdRawIngestService

    constructor (ingestService: FdRawIngestService)
      ensures this.ingestService == ingestService
    {
      this.ingestService := ingestService;
    }

    /** fixtures(competitionCode). Returns the answer and the number of
        upstream calls made. */
    method Fixtures(code: string, now: int, monthSpan: int,
                    upstream: seq<FdOrgClient.Exchange>,
                    read: seq<FdOrgClient.Byte> -> FdOrgClient.Conversion,
                    write: MatchPayload.Competition -> Result<string, Option<string>>,
                    dbNow: int)
      returns (r: Result<int, Failure>, calls: nat)
      requires ingestService.repository.Valid() && IsMonthSpan(monthSpan) && FdOrgClient.MaxAttempts <= |upstream|
      modifies ingestService.repository
      ensures ingestService.repository.Valid()
      ensures !ValidCompetitionCode(code) ==>
                r == Err(ValidationFailure()) && calls == 0
                && ingestService.repository.Contents() == old(ingestService.repository.Contents())
      ensures ValidCompetitionCode(code) ==>
                var run := Ingest(old(ingestService.repository.Contents()), code, now, monthSpan, upstream, read, write, dbNow);
                r == FixturesAnswer(code, run.result) && calls == run.calls
                && ingestService.repository.Contents() == run.store
    {
      if !ValidCompetitionCode(code) {
        return Err(ValidationFailure()), 0;
      }
      var result;
      result, calls := ingestService.FetchAndStoreCompetitionRaw(code, now, monthSpan, upstream, read, write, dbNow);
      r := FixturesAnswer(code, result);
    }
  }

  /** A code that fails validation is answered 500 by the catch-all
      handler, although the endpoint documents 400 for a bad request. */
  lemma InvalidCodeAnsweredInternalError(code: string)
    requires !ValidCompetitionCode(code)
    ensures ResponseStatusOf(Err(ValidationFailure())) == 500
  {
  }

  /** For a valid code the endpoint never answers 500: it answers 200 with
      a new id, 404 when the code was fresh, absent upstream or already
      stored, 429, 502 or 504 after failed retries, 502 for an unreadable
      payload, or the upstream's own 4xx. */
  lemma {:induction false} ValidCodeStatuses(s: Store, code: string, now: int, monthSpan: int,
                                             upstream: seq<FdOrgClient.Exchange>,
                                             read: seq<FdOrgClient.Byte> -> FdOrgClient.Conversion,
                                             write: MatchPayload.Competition -> Result<string, Option<string>>,
                                             dbNow: int)
    requires StoreValid(s) && IsMonthSpan(monthSpan) && FdOrgClient.MaxAttempts <= |upstream|
    requires ValidCompetitionCode(code)
    ensures var st := ResponseStatusOf(FixturesAnswer(code, Ingest(s, code, now, monthSpan, upstream, read, write, dbNow).result));
            st in {200, 404, 429, 502, 504} || (Is4xx(st) && st != 404)
  {
    FdOrgClient.OutcomeFailures(upstream, read);
  }

  /** A second request for a code stored less than 28 days earlier makes
      no upstream call and is answered 404. */
  lemma {:induction false} RepeatedRequestNotFound(
    s: Store, code: string,
    now1: int, span1: int, up1: seq<FdOrgClient.Exchange>, dbNow1: int,
    now2: int, span2: int, up2: seq<FdOrgClient.Exchange>, dbNow2: int,
    read: seq<FdOrgClient.Byte> -> FdOrgClient.Conversion,
    write: MatchPayload.Competition -> Result<string, Option<string>>)
    requires StoreValid(s) && IsMonthSpan(span1) && IsMonthSpan(span2)
    requires FdOrgClient.MaxAttempts <= |up1| && FdOrgClient.MaxAttempts <= |up2|
    requires now1 <= dbNow1 && now1 <= now2 <= now1 + ShortestMonth
    requires FixturesAnswer(code, Ingest(s, code, now1, span1, up1, read, write, dbNow1).result).Ok?
    ensures var first := Ingest(s, code, now1, span1, up1, read, write, dbNow1);
            var second := Ingest(first.store, code, now2, span2, up2, read, write, dbNow2);
            second.calls == 0
            && FixturesAnswer(code, second.result) == Err(ResponseStatus(404, Some(NotFoundReason(code))))
  {
    AtMostOneFetchPerMonth(s, code, now1, span1, up1, dbNow1, now2, span2, up2, dbNow2, read, write);
  }
}
