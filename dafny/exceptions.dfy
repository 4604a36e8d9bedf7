/** The closed set of failures that leave the ingest pipeline and reach the
    REST layer's problem handler: the exception types FdOrgClient declares,
    Spring's ResponseStatusException and resource-access failure, the
    configuration's TooManyRequestsException, and every other exception as
    one catch-all kind. */
module Exceptions {
  import opened Outcomes

  /** An HTTP status code as Spring's HttpStatusCode.valueOf accepts it. */
  type StatusCode = s: int | 100 <= s <= 999 witness 200

  /** HttpStatusCode.is4xxClientError. */
  predicate Is4xx(s: StatusCode) {
    s / 100 == 4
  }

  /** HttpStatusCode.is5xxServerError. */
  predicate Is5xx(s: StatusCode) {
    s / 100 == 5
  }

  datatype Failure =
      /** ResponseStatusException: a status and a nullable reason. */
    | ResponseStatus(status: StatusCode, reason: Option<string>)
      /** FootballDataSourceConfig.TooManyRequestsException. */
    | TooManyRequests
      /** FdOrgClient.RateLimitedException, its Duration in whole seconds. */
    | RateLimited(retryAfterSeconds: int)
      /** FdOrgClient.Upstream5xxException with the upstream status. */
    | Upstream5xx(status: StatusCode)
      /** FdOrgClient.UpstreamBadContentTypeException. */
    | UpstreamBadContentType(contentType: Option<string>, preview: Option<string>)
      /** FdOrgClient.UpstreamJsonParseException with its nullable message. */
    | UpstreamJsonParse(message: Option<string>)
      /** Spring's ResourceAccessException: I/O error, timeout, refused connection. */
    | ResourceAccess(message: Option<string>)
      /** IllegalStateException, raised while building the upstream client. */
    | IllegalState(message: Option<string>)
      /** IllegalArgumentException, raised by System.getProperty(""). */
    | IllegalArgument(message: Option<string>)
      /** Any other exception (validation, database, programming error). */
    | Unexpected(message: Option<string>)
}
