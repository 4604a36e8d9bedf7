/** ProblemHandler: how each failure that escapes a controller is rendered
    as an RFC 9457 problem document (status, type, title, detail) and the
    optional Retry-After header of the HTTP response. Spring chooses the
    handler declared for the most specific exception type; every failure
    without its own handler falls to the catch-all for Exception. */
module ProblemHandler {
  import opened Outcomes
  import opened JavaText
  import opened Exceptions

  /** ProblemDetail plus the Retry-After header of the response. A title
      or type the handler does not set keeps ProblemDetail's default: the
      status's reason phrase and "about:blank". */
  datatype Problem = Problem(
    status: StatusCode,
    problemType: string,
    title: Option<string>,
    detail: Option<string>,
    retryAfter: Option<string>)

  const ProblemBase := "https://api.jstats.org/problems/"
  const AboutBlank := "about:blank"
  const InternalDetail := "Unexpected error. If this persists, contact support."

  /** The title of a ResponseStatusException's problem. */
  function StatusTitle(status: StatusCode): string {
    if status == 404 then "Resource Not Found"
    else if status == 400 then "Bad Request"
    else "Request Failed"
  }

  /** The handler Spring selects for the failure, applied to it. */
  function Handle(f: Failure): (p: Problem)
    // statuses
    ensures f.ResponseStatus? ==> p.status == f.status
    ensures f.TooManyRequests? || f.RateLimited? ==> p.status == 429
    ensures f.Upstream5xx? || f.UpstreamBadContentType? || f.UpstreamJsonParse? ==> p.status == 502
    ensures f.ResourceAccess? || f.IllegalState? || f.IllegalArgument? || f.Unexpected? ==>
              p == Problem(500, ProblemBase + "internal-error", Some("Internal Server Error"), Some(InternalDetail), None)
  {
    match f
    case ResponseStatus(status, reason) =>
      Problem(status, ProblemBase + LongToString(status), Some(StatusTitle(status)), reason, None)
    case TooManyRequests =>
      Problem(429, ProblemBase + "rate-limit", Some("Too Many Requests"),
              Some("Rate limit reached for football-data.org. Please retry later."), Some("30"))
    case RateLimited(secs) =>
      Problem(429, AboutBlank, Some("Too Many Requests"),
              Some("Rate limit reached at football-data.org. Please retry later."), Some(LongToString(secs)))
    case Upstream5xx(status) =>
      Problem(502, AboutBlank, Some("Bad Gateway"),
              Some("Upstream error from football-data.org: " + LongToString(status)), None)
    case UpstreamBadContentType(contentType, preview) =>
      Problem(502, AboutBlank, Some("Upstream returned non-JSON"),
              Some("Content-Type: " + NullableText(contentType) + "; Preview: " + NullableText(preview)), None)
    case UpstreamJsonParse(message) =>
      Problem(502, AboutBlank, Some("Failed to parse upstream JSON"), message, None)
    case _ =>
      Problem(500, ProblemBase + "internal-error", Some("Internal Server Error"), Some(InternalDetail), None)
  }

  /** A Retry-After header comes only from the two rate-limit handlers:
      a fixed 30 seconds for TooManyRequestsException, the carried
      seconds for RateLimitedException. */
  lemma RetryAfterOnlyWhenRateLimited(f: Failure)
    ensures Handle(f).retryAfter.Some? <==> f.TooManyRequests? || f.RateLimited?
    ensures f.TooManyRequests? ==> Handle(f).retryAfter == Some("30")
    ensures f.RateLimited? ==> Handle(f).retryAfter == Some(LongToString(f.retryAfterSeconds))
  {
  }

  /** A ResponseStatusException keeps its reason as the detail and gets a
      problem type naming its status; a JSON parse failure keeps its
      message. */
  lemma DetailsCarried(f: Failure)
    ensures f.ResponseStatus? ==>
              Handle(f).detail == f.reason && Handle(f).problemType == ProblemBase + LongToString(f.status)
              && Handle(f).title == Some(StatusTitle(f.status))
    ensures f.UpstreamJsonParse? ==> Handle(f).detail == f.message
  {
  }

  /** String concatenation of a nullable string. */
  function NullableText(s: Option<string>): string {
    if s.Some? then s.value else "null"
  }

  /** The catch-all never reveals anything of the exception it caught: two
      failures without their own handler give the same problem. */
  lemma InternalErrorsIndistinguishable(f: Failure, g: Failure)
    requires f.ResourceAccess? || f.IllegalState? || f.IllegalArgument? || f.Unexpected?
    requires g.ResourceAccess? || g.IllegalState? || g.IllegalArgument? || g.Unexpected?
    ensures Handle(f) == Handle(g)
  {
  }

  /** Only a ResponseStatusException can produce a status outside
      {429, 500, 502}. */
  lemma StatusesOfOwnHandlers(f: Failure)
    requires !f.ResponseStatus?
    ensures Handle(f).status in {429, 500, 502}
  {
  }
}
