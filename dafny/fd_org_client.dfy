/** FdOrgClient: one GET /v4/competitions/{code} against football-data.org,
    the mapping of each HTTP outcome to a value or an exception, and the
    Spring Retry policy around it (three attempts, exponential back-off,
    recovery handlers after the last attempt).

    The upstream is given as the sequence of exchanges the successive
    attempts would meet; Jackson's reading of a 2xx body is the function
    parameter `read`. */
module FdOrgClient {
  import opened Outcomes
  import opened JavaText
  import opened Exceptions
  import MatchPayload

  type Byte = b: int | 0 <= b < 256

  /** A response as RestClient sees it: status, headers in arrival order,
      body bytes. */
  datatype HttpResponse = HttpResponse(status: StatusCode, headers: seq<(string, string)>, body: seq<Byte>)

  /** One attempt's exchange: a response, or an I/O failure (timeout,
      refused connection) that RestClient raises as ResourceAccessException. */
  datatype Exchange = Replied(response: HttpResponse) | IoFailure(message: Option<string>)

  /** What caused an HttpMessageConversionException. */
  datatype ConversionCause =
    | JsonProcessingCause(originalMessage: Option<string>)
    | OtherCause

  /** The JSON converter's reading of a body: the record (null for a JSON
      `null` body), or a conversion failure with its own message. */
  datatype Conversion =
    | Converted(competition: Option<MatchPayload.Competition>)
    | ConversionFailed(cause: ConversionCause, message: Option<string>)

  function Min(a: int, b: int): int {
    if a <= b then a else b
  }

  function Max(a: int, b: int): int {
    if a <= b then b else a
  }

  // ---------- headers ----------

  /** Header names compare without regard to ASCII case. */
  predicate EqualsIgnoreCase(a: string, b: string) {
    |a| == |b| && forall i :: 0 <= i < |a| ==> UpperAscii(a[i]) == UpperAscii(b[i])
  }

  /** HttpHeaders.getFirst: the value of the first header with that name. */
  function FirstHeader(headers: seq<(string, string)>, name: string): (r: Option<string>)
    ensures r.None? <==> forall i :: 0 <= i < |headers| ==> !EqualsIgnoreCase(headers[i].0, name)
    ensures r.Some? ==> exists i :: 0 <= i < |headers| && EqualsIgnoreCase(headers[i].0, name)
                                    && headers[i].1 == r.value
                                    && forall j :: 0 <= j < i ==> !EqualsIgnoreCase(headers[j].0, name)
  {
    if headers == [] then None
    else if EqualsIgnoreCase(headers[0].0, name) then Some(headers[0].1)
    else
      var r := FirstHeader(headers[1..], name);
      if r.Some? then
        var i :| 0 <= i < |headers[1..]| && EqualsIgnoreCase(headers[1..][i].0, name)
                 && headers[1..][i].1 == r.value
                 && forall j :: 0 <= j < i ==> !EqualsIgnoreCase(headers[1..][j].0, name);
        assert headers[i + 1] == headers[1..][i];
        assert forall j :: 0 <= j < i + 1 ==> !EqualsIgnoreCase(headers[j].0, name) by {
          forall j | 0 <= j < i + 1 ensures !EqualsIgnoreCase(headers[j].0, name) {
            if j > 0 { assert headers[j] == headers[1..][j - 1]; }
          }
        }
        r
      else
        assert forall i :: 0 <= i < |headers| ==> !EqualsIgnoreCase(headers[i].0, name) by {
          forall i | 0 <= i < |headers| ensures !EqualsIgnoreCase(headers[i].0, name) {
            if i > 0 { assert headers[i] == headers[1..][i - 1]; }
          }
        }
        r
  }

  /** The Retry-After value in whole seconds, from the header's text: two
      seconds when the header is missing, blank or not a long; otherwise the
      number, raised to at least one second. */
  function RetryAfterSeconds(ra: Option<string>): (secs: int)
    ensures secs >= 1
    ensures ra.None? || IsBlank(ra.value) || ParseLong(Trim(ra.value)).None? ==> secs == 2
    ensures ra.Some? && !IsBlank(ra.value) && ParseLong(Trim(ra.value)).Some? ==>
              secs == Max(1, ParseLong(Trim(ra.value)).value)
  {
    if ra.None? || IsBlank(ra.value) then 2
    else
      match ParseLong(Trim(ra.value))
      case Some(n) => Max(1, n)
      case None => 2
  }

  /** parseRetryAfter: the delay a 429 response asks for. */
  function ParseRetryAfter(headers: seq<(string, string)>): (secs: int)
    ensures secs >= 1
  {
    RetryAfterSeconds(FirstHeader(headers, "Retry-After"))
  }

  /** A Retry-After header that advertises a whole number of seconds, with
      or without surrounding blanks, is read back as that number (at least
      one second). */
  lemma RetryAfterAdvertised(ra: string, n: int)
    requires LongMin <= n <= LongMax
    requires Trim(ra) == LongToString(n)
    ensures RetryAfterSeconds(Some(ra)) == Max(1, n)
  {
    LongToStringOpens(n);
    NotBlankWhenTrimOpensWithText(ra);
    ParseLongOfToString(n);
    assert ParseLong(Trim(ra)) == Some(n);
  }

  // ---------- 4xx reporting ----------

  const PreviewLimit: nat := 500

  /** One body byte read as UTF-8 on its own: ASCII stays, any other byte
      becomes the replacement character. */
  function DecodeByte(b: Byte): char {
    if b < 0x80 then b as char else '\U{FFFD}'
  }

  /** The first 500 bytes of an error body, as text. */
  function Preview(body: seq<Byte>): (p: string)
    ensures |p| == Min(|body|, PreviewLimit)
    ensures forall i :: 0 <= i < |p| ==> p[i] == DecodeByte(body[i])
  {
    var n := Min(|body|, PreviewLimit);
    seq(n, i requires 0 <= i < n => DecodeByte(body[i]))
  }

  /** problemMsg: the leading sentence alone when there is nothing to
      preview; otherwise the leading sentence, ": ", and at most 500
      characters of the preview. */
  function ProblemMsg(leading: string, preview: Option<string>): (m: string)
    ensures preview.None? || IsBlank(preview.value) ==> m == leading
    ensures preview.Some? && HasText(preview.value) ==>
              StartsWith(m, leading + ": ")
              && |m| <= |leading| + 2 + PreviewLimit
              && m[|leading| + 2..] <= preview.value
    ensures preview.Some? && HasText(preview.value) && |preview.value| > PreviewLimit ==>
              m == leading + ": " + preview.value[..PreviewLimit]
  {
    if preview.None? || IsBlank(preview.value) then leading
    else
      var p := preview.value;
      var safe := if |p| > PreviewLimit then p[..PreviewLimit] else p;
      leading + ": " + safe
  }

  /** A preview of at most 500 characters is carried whole. */
  lemma ShortPreviewKept(leading: string, preview: string)
    requires HasText(preview) && |preview| <= PreviewLimit
    ensures ProblemMsg(leading, Some(preview)) == leading + ": " + preview
  {
  }

  /** The sentence that opens the reason of a 4xx other than 404 and 429. */
  function ClientErrorLead(status: StatusCode): string {
    if status == 400 then "Bad request to football-data.org (likely token/parameters)"
    else if status == 401 then "Unauthorized at football-data.org (check X-Auth-Token)"
    else if status == 403 then "Forbidden at football-data.org (token lacks permissions)"
    else "Upstream 4xx from football-data.org"
  }

  /** The ResponseStatusException a 4xx other than 404 and 429 becomes:
      the upstream status is kept and the reason opens with the sentence for
      that status. */
  function ClientErrorFailure(status: StatusCode, body: seq<Byte>): (f: Failure)
    ensures f.ResponseStatus? && f.status == status && f.reason.Some?
    ensures StartsWith(f.reason.value, ClientErrorLead(status))
  {
    ResponseStatus(status, Some(ProblemMsg(ClientErrorLead(status), Some(Preview(body)))))
  }

  /** The message of the UpstreamJsonParseException a conversion failure
      becomes: Jackson's original message when Jackson failed, otherwise
      the converter's own message. */
  function ParseFailureMessage(cause: ConversionCause, message: Option<string>): Option<string> {
    match cause
    case JsonProcessingCause(original) => original
    case OtherCause => message
  }

  // ---------- one attempt ----------

  /** The failures @Retryable retries: rate limiting, 5xx, I/O. */
  predicate IsRetryable(f: Failure) {
    f.RateLimited? || f.Upstream5xx? || f.ResourceAccess?
  }

  /** One call of getCompetitionInfo: 404 and a null body give an empty
      result; 429, 5xx and I/O failures raise the retryable exceptions;
      every other 4xx raises a ResponseStatusException; a body that cannot
      be read raises UpstreamJsonParseException. */
  function Attempt(x: Exchange, read: seq<Byte> -> Conversion): (r: Result<Option<MatchPayload.Competition>, Failure>)
    ensures x.IoFailure? ==> r == Err(ResourceAccess(x.message))
    ensures x.Replied? && x.response.status == 404 ==> r == Ok(None)
    ensures (r.Err? && IsRetryable(r.error)) <==>
              x.IoFailure? || x.response.status == 429 || Is5xx(x.response.status)
    ensures x.Replied? && x.response.status == 429 ==>
              r == Err(RateLimited(ParseRetryAfter(x.response.headers)))
    ensures x.Replied? && Is4xx(x.response.status) && x.response.status !in {404, 429} ==>
              r == Err(ClientErrorFailure(x.response.status, x.response.body))
    ensures r.Ok? && x.Replied? ==>
              x.response.status == 404 || !(Is4xx(x.response.status) || Is5xx(x.response.status))
    ensures r.Err? ==> IsRetryable(r.error) || r.error.UpstreamJsonParse?
                       || (r.error.ResponseStatus? && Is4xx(r.error.status) && r.error.status !in {404, 429})
  {
    match x
    case IoFailure(message) => Err(ResourceAccess(message))
    case Replied(resp) =>
      if resp.status == 404 then Ok(None)
      else if resp.status == 429 then Err(RateLimited(ParseRetryAfter(resp.headers)))
      else if Is5xx(resp.status) then Err(Upstream5xx(resp.status))
      else if Is4xx(resp.status) then Err(ClientErrorFailure(resp.status, resp.body))
      else
        match read(resp.body)
        case Converted(competition) => Ok(competition)
        case ConversionFailed(cause, message) => Err(UpstreamJsonParse(ParseFailureMessage(cause, message)))
  }

  // ---------- the retry policy ----------

  const MaxAttempts: nat := 3
  const InitialDelay: nat := 1000
  const Multiplier: nat := 2
  const MaxDelay: nat := 8000

  /** ExponentialBackOffPolicy: the pause after a pause of d milliseconds. */
  function NextDelay(d: nat): nat {
    Min(d * Multiplier, MaxDelay)
  }

  /** The pause before retry number k (k = 1 is the first retry). */
  function DelayBefore(k: nat): nat
    requires k >= 1
  {
    if k == 1 then Min(InitialDelay, MaxDelay) else NextDelay(DelayBefore(k - 1))
  }

  /** The pauses before the first n retries, in order. */
  function Backoffs(n: nat): (ds: seq<nat>)
    ensures |ds| == n
    ensures forall k :: 1 <= k <= n ==> ds[k - 1] == DelayBefore(k)
  {
    if n == 0 then [] else Backoffs(n - 1) + [DelayBefore(n)]
  }

  function Pow2(n: nat): nat {
    if n == 0 then 1 else 2 * Pow2(n - 1)
  }

  /** The pause before retry k is 1000 ms doubled k - 1 times, capped at
      8000 ms. */
  lemma {:induction false} DelayClosedForm(k: nat)
    requires k >= 1
    ensures DelayBefore(k) == Min(InitialDelay * Pow2(k - 1), MaxDelay)
  {
    if k > 1 {
      DelayClosedForm(k - 1);
    }
  }

  /** Pauses never shrink and stay between 1000 and 8000 ms. */
  lemma {:induction false} DelayBounds(k: nat)
    requires k >= 1
    ensures InitialDelay <= DelayBefore(k) <= MaxDelay
    ensures DelayBefore(k) <= DelayBefore(k + 1)
  {
    if k > 1 {
      DelayBounds(k - 1);
    }
  }

  /** The attempt (counted from 0) after which the retry template stops,
      when attempt i has been reached: it goes on while an attempt fails
      with a retryable exception and attempts are left. */
  function LastAttemptFrom(xs: seq<Exchange>, read: seq<Byte> -> Conversion, i: nat): (k: nat)
    requires i < MaxAttempts <= |xs|
    ensures i <= k < MaxAttempts
    decreases MaxAttempts - i
  {
    var r := Attempt(xs[i], read);
    if r.Err? && IsRetryable(r.error) && i + 1 < MaxAttempts then LastAttemptFrom(xs, read, i + 1) else i
  }

  /** How many times getCompetitionInfo runs for one call through the
      retrying proxy. */
  function AttemptsMade(xs: seq<Exchange>, read: seq<Byte> -> Conversion): (n: nat)
    requires MaxAttempts <= |xs|
    ensures 1 <= n <= MaxAttempts
  {
    LastAttemptFrom(xs, read, 0) + 1
  }

  /** The @Recover handlers: a rate limit becomes 429, a 5xx becomes 502,
      an I/O failure becomes 504; a failure no handler accepts is rethrown
      as it is. */
  function Recover(f: Failure): (g: Failure)
    ensures IsRetryable(f) ==> g.ResponseStatus? && g.reason.Some?
    ensures f.RateLimited? ==> g.status == 429
    ensures f.Upstream5xx? ==> g.status == 502
    ensures f.ResourceAccess? ==> g.status == 504
    ensures !IsRetryable(f) ==> g == f
  {
    match f
    case RateLimited(secs) =>
      ResponseStatus(429, Some("Rate limit reached at football-data.org; retry after ~" + LongToString(secs) + "s"))
    case Upstream5xx(status) =>
      ResponseStatus(502, Some("Upstream error from football-data.org: HTTP " + LongToString(status)))
    case ResourceAccess(_) =>
      ResponseStatus(504, Some("Upstream timeout while calling football-data.org"))
    case _ => f
  }

  /** What a caller of the retrying proxy sees: the last attempt's value,
      or its exception after recovery. */
  function Outcome(xs: seq<Exchange>, read: seq<Byte> -> Conversion): Result<Option<MatchPayload.Competition>, Failure>
    requires MaxAttempts <= |xs|
  {
    var r := Attempt(xs[AttemptsMade(xs, read) - 1], read);
    if r.Err? then Err(Recover(r.error)) else r
  }

  /** getCompetitionInfo behind its @Retryable proxy: attempts are made
      until one does not fail retryably or three have been made, pausing
      between them; the outcome is then recovered. Returns the outcome, the
      number of calls made upstream and the pauses taken, in milliseconds. */
  method GetCompetitionInfo(xs: seq<Exchange>, read: seq<Byte> -> Conversion)
    returns (r: Result<Option<MatchPayload.Competition>, Failure>, calls: nat, pauses: seq<nat>)
    requires MaxAttempts <= |xs|
    ensures calls == AttemptsMade(xs, read)
    ensures r == Outcome(xs, read)
    ensures pauses == Backoffs(calls - 1)
  {
    var last := Attempt(xs[0], read);
    var delay := Min(InitialDelay, MaxDelay);
    calls := 1;
    pauses := [];
    while last.Err? && IsRetryable(last.error) && calls < MaxAttempts
      invariant 1 <= calls <= MaxAttempts
      invariant last == Attempt(xs[calls - 1], read)
      invariant LastAttemptFrom(xs, read, 0) == LastAttemptFrom(xs, read, calls - 1)
      invariant pauses == Backoffs(calls - 1)
      invariant delay == DelayBefore(calls)
      decreases MaxAttempts - calls
    {
      pauses := pauses + [delay];
      delay := NextDelay(delay);
      last := Attempt(xs[calls], read);
      calls := calls + 1;
    }
    if last.Err? {
      r := Err(Recover(last.error));
    } else {
      r := last;
    }
  }

  // ---------- properties of the policy ----------

  /** What a caller can be thrown: a 429, 502 or 504 from recovery, the
      upstream's own 4xx status other than 404 and 429, or a JSON parse
      failure. UpstreamBadContentTypeException is never among them. */
  lemma OutcomeFailures(xs: seq<Exchange>, read: seq<Byte> -> Conversion)
    requires MaxAttempts <= |xs|
    ensures Outcome(xs, read).Err? ==>
              var f := Outcome(xs, read).error;
              f.UpstreamJsonParse?
              || (f.ResponseStatus? && (f.status in {429, 502, 504} || (Is4xx(f.status) && f.status != 404)))
  {
  }

  /** Every attempt before the last one failed retryably: the template
      never retries after a value or a non-retryable exception. */
  lemma {:induction false} RetriedOnlyAfterRetryableFailure(xs: seq<Exchange>, read: seq<Byte> -> Conversion, i: nat, j: nat)
    requires i < MaxAttempts <= |xs|
    requires i <= j < LastAttemptFrom(xs, read, i)
    ensures Attempt(xs[j], read).Err? && IsRetryable(Attempt(xs[j], read).error)
    decreases MaxAttempts - i
  {
    if j > i {
      RetriedOnlyAfterRetryableFailure(xs, read, i + 1, j);
    }
  }

  /** A first attempt that returns a value or fails without a retryable
      exception is the only one: a 400 from upstream is surfaced after a
      single call. */
  lemma SingleAttemptUnlessRetryable(xs: seq<Exchange>, read: seq<Byte> -> Conversion)
    requires MaxAttempts <= |xs|
    requires !(Attempt(xs[0], read).Err? && IsRetryable(Attempt(xs[0], read).error))
    ensures AttemptsMade(xs, read) == 1
    ensures Outcome(xs, read) == Attempt(xs[0], read)
  {
  }

  /** When every attempt fails retryably, three calls are made and the
      exception of the last one, recovered, is what the caller sees. */
  lemma {:induction false} ExhaustedRetriesRecoverLastFailure(xs: seq<Exchange>, read: seq<Byte> -> Conversion)
    requires MaxAttempts <= |xs|
    requires forall i :: 0 <= i < MaxAttempts ==>
               Attempt(xs[i], read).Err? && IsRetryable(Attempt(xs[i], read).error)
    ensures AttemptsMade(xs, read) == MaxAttempts
    ensures Outcome(xs, read) == Err(Recover(Attempt(xs[MaxAttempts - 1], read).error))
    ensures Outcome(xs, read).error.ResponseStatus?
  {
    assert LastAttemptFrom(xs, read, 2) == 2;
    assert LastAttemptFrom(xs, read, 1) == 2;
    assert LastAttemptFrom(xs, read, 0) == 2;
  }

  /** A 429 reply advertising Retry-After: n. */
  function RateLimitedReply(n: int): Exchange {
    Replied(HttpResponse(429, [("Retry-After", LongToString(n))], []))
  }

  /** The reply's Retry-After header is found by name. */
  lemma RateLimitedReplyHeader(n: int)
    ensures FirstHeader(RateLimitedReply(n).response.headers, "Retry-After") == Some(LongToString(n))
  {
    assert EqualsIgnoreCase("Retry-After", "Retry-After");
  }

  /** The decimal text of a long, as a Retry-After value, is that many
      seconds. */
  lemma RetryAfterOfLong(n: int)
    requires 1 <= n <= LongMax
    ensures RetryAfterSeconds(Some(LongToString(n))) == n
  {
    TrimOfTrimmed(LongToString(n));
    RetryAfterAdvertised(LongToString(n), n);
  }

  /** One 429 reply advertising n seconds fails with exactly those
      seconds. */
  lemma RateLimitedAttempt(n: int, read: seq<Byte> -> Conversion)
    requires 1 <= n <= LongMax
    ensures Attempt(RateLimitedReply(n), read) == Err(RateLimited(n))
  {
    RateLimitedReplyHeader(n);
    RetryAfterOfLong(n);
    assert ParseRetryAfter(RateLimitedReply(n).response.headers) == n;
  }

  /** Three replies that each fail retryably exhaust the attempts; the
      last one's failure is recovered. */
  lemma ThreeRetryableReplies(x: Exchange, read: seq<Byte> -> Conversion)
    requires Attempt(x, read).Err? && IsRetryable(Attempt(x, read).error)
    ensures AttemptsMade([x, x, x], read) == 3
    ensures Outcome([x, x, x], read) == Err(Recover(Attempt(x, read).error))
  {
    var xs := [x, x, x];
    assert xs[0] == x && xs[1] == x && xs[2] == x;
    ExhaustedRetriesRecoverLastFailure(xs, read);
  }

  /** Three 429 replies exhaust the attempts; the last one's failure is
      recovered. */
  lemma ThreeRateLimitedReplies(n: int, read: seq<Byte> -> Conversion)
    requires 1 <= n <= LongMax
    ensures var xs := [RateLimitedReply(n), RateLimitedReply(n), RateLimitedReply(n)];
            AttemptsMade(xs, read) == 3 && Outcome(xs, read) == Err(Recover(RateLimited(n)))
  {
    RateLimitedAttempt(n, read);
    ThreeRetryableReplies(RateLimitedReply(n), read);
  }

  /** The pauses before the two retries are 1000 and 2000 ms. */
  lemma TwoBackoffs()
    ensures Backoffs(2) == [1000, 2000]
  {
    assert DelayBefore(1) == 1000;
    assert DelayBefore(2) == 2000;
  }

  /** Three 429 replies that each advertise Retry-After: n. The caller gets
      a 429 whose reason quotes the advertised seconds, yet the pauses taken
      are the fixed 1000 and 2000 ms: the header never shortens or lengthens
      the back-off. */
  lemma RateLimitedThrice(n: int, read: seq<Byte> -> Conversion)
    requires 1 <= n <= LongMax
    ensures var xs := [RateLimitedReply(n), RateLimitedReply(n), RateLimitedReply(n)];
            AttemptsMade(xs, read) == 3
            && Backoffs(AttemptsMade(xs, read) - 1) == [1000, 2000]
            && Outcome(xs, read) == Err(ResponseStatus(429, Some(
                 "Rate limit reached at football-data.org; retry after ~" + LongToString(n) + "s")))
  {
    ThreeRateLimitedReplies(n, read);
    TwoBackoffs();
  }

  /** Two 503 replies, then a 200 carrying a competition: the third call
      succeeds after pauses of 1000 and 2000 ms. */
  lemma RecoversAfterTwoServerErrors(body: seq<Byte>, c: MatchPayload.Competition, read: seq<Byte> -> Conversion)
    requires read(body) == Converted(Some(c))
    ensures var down := Replied(HttpResponse(503, [], []));
            var xs := [down, down, Replied(HttpResponse(200, [], body))];
            AttemptsMade(xs, read) == 3
            && Backoffs(AttemptsMade(xs, read) - 1) == [1000, 2000]
            && Outcome(xs, read) == Ok(Some(c))
  {
    var down := Replied(HttpResponse(503, [], []));
    var xs := [down, down, Replied(HttpResponse(200, [], body))];
    assert LastAttemptFrom(xs, read, 1) == 2;
  }
}
